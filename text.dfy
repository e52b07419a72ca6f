/// The string operations the handlers apply to request fields:
/// String.prototype.trim, toLowerCase (on the ASCII letters), slice(0, n),
/// startsWith, and the order that localeCompare gives on date strings.
module Text {

  /// The characters JavaScript's trim removes: WhiteSpace (tab, vertical
  /// tab, form feed, space, no-break space, byte order mark, and the
  /// Unicode space separators) and LineTerminator.
  predicate IsSpace(c: char)
  {
    c == '\t' || c == '\n' || c == '\U{000B}' || c == '\U{000C}' || c == '\r' || c == ' '
    || c == '\U{00A0}' || c == '\U{1680}' || ('\U{2000}' <= c <= '\U{200A}')
    || c == '\U{2028}' || c == '\U{2029}' || c == '\U{202F}' || c == '\U{205F}'
    || c == '\U{3000}' || c == '\U{FEFF}'
  }

  /// Drops leading white space: the result is a suffix of s that does not
  /// start with white space, and everything dropped was white space.
  function TrimStart(s: string): (r: string)
    ensures |r| <= |s| && r == s[|s| - |r|..]
    ensures r == [] || !IsSpace(r[0])
    ensures forall i :: 0 <= i < |s| - |r| ==> IsSpace(s[i])
  {
    if s != [] && IsSpace(s[0]) then TrimStart(s[1..]) else s
  }

  /// Drops trailing white space: the result is a prefix of s that does not
  /// end with white space, and everything dropped was white space.
  function TrimEnd(s: string): (r: string)
    ensures |r| <= |s| && r == s[..|r|]
    ensures r == [] || !IsSpace(r[|r| - 1])
    ensures forall i :: |r| <= i < |s| ==> IsSpace(s[i])
  {
    if s != [] && IsSpace(s[|s| - 1]) then TrimEnd(s[..|s| - 1]) else s
  }

  /// String.prototype.trim: s with its leading and trailing white space
  /// removed and nothing else, so the result neither starts nor ends with
  /// white space.
  function Trim(s: string): (r: string)
    ensures |r| <= |s|
    ensures r == [] || (!IsSpace(r[0]) && !IsSpace(r[|r| - 1]))
    ensures exists k :: 0 <= k <= |s| - |r| && r == s[k..][..|r|]
                     && (forall i :: 0 <= i < k ==> IsSpace(s[i]))
                     && (forall i :: k + |r| <= i < |s| ==> IsSpace(s[i]))
  {
    var t := TrimStart(s);
    TrimWindow(s, t, TrimEnd(t));
    TrimEnd(t)
  }

  /// Trimming the end of what TrimStart left removes the leading and the
  /// trailing white space of s, and keeps the window between.
  lemma TrimWindow(s: string, t: string, r: string)
    requires t == TrimStart(s) && r == TrimEnd(t)
    ensures var k := |s| - |t|;
            r == s[k..][..|r|]
            && (forall i :: 0 <= i < k ==> IsSpace(s[i]))
            && (forall i :: k + |r| <= i < |s| ==> IsSpace(s[i]))
  {
    var k := |s| - |t|;
    assert t == s[k..];
    forall i | k + |r| <= i < |s| ensures IsSpace(s[i]) {
      assert s[i] == t[i - k];
    }
  }

  /// Trimming an already trimmed string changes nothing.
  lemma TrimIdempotent(s: string)
    ensures Trim(Trim(s)) == Trim(s)
  {
    var t := Trim(s);
    assert TrimStart(t) == t;
  }

  /// A string of white space only trims away at the start.
  lemma {:induction false} TrimStartAllSpace(s: string)
    requires forall i :: 0 <= i < |s| ==> IsSpace(s[i])
    ensures TrimStart(s) == []
  {
    if s != [] {
      assert forall i :: 0 <= i < |s[1..]| ==> s[1..][i] == s[i + 1];
      TrimStartAllSpace(s[1..]);
    }
  }

  /// A string is empty after trimming exactly when it is all white space.
  lemma TrimEmpty(s: string)
    ensures Trim(s) == [] <==> forall i :: 0 <= i < |s| ==> IsSpace(s[i])
  {
    if Trim(s) == [] {
      assert TrimStart(s) == [];
    }
    if forall i :: 0 <= i < |s| ==> IsSpace(s[i]) {
      TrimStartAllSpace(s);
    }
  }

  function LowerChar(c: char): char
  {
    if 'A' <= c <= 'Z' then (c as int - 'A' as int + 'a' as int) as char else c
  }

  /// toLowerCase on the ASCII letters; every other character is kept.
  function Lower(s: string): (r: string)
    ensures |r| == |s|
    ensures forall i :: 0 <= i < |r| ==> !('A' <= r[i] <= 'Z')
    ensures forall i :: 0 <= i < |s| && 'A' <= s[i] <= 'Z' ==> r[i] as int == s[i] as int + ('a' as int - 'A' as int)
    ensures forall i :: 0 <= i < |s| && !('A' <= s[i] <= 'Z') ==> r[i] == s[i]
  {
    seq(|s|, i requires 0 <= i < |s| => LowerChar(s[i]))
  }

  lemma LowerIdempotent(s: string)
    ensures Lower(Lower(s)) == Lower(s)
  {
  }

  /// `s.slice(0, n)`.
  function Take(s: string, n: nat): (r: string)
    ensures |r| == if |s| <= n then |s| else n
    ensures r == s[..|r|]
    ensures |s| <= n ==> r == s
  {
    if |s| <= n then s else s[..n]
  }

  /// `s.startsWith(prefix)`.
  predicate StartsWith(s: string, prefix: string)
  {
    |prefix| <= |s| && s[..|prefix|] == prefix
  }

  /// `a.localeCompare(b) <= 0` on the strings this program compares (ISO
  /// dates): character-by-character order, a proper prefix first.
  predicate NotAfter(a: string, b: string)
  {
    a == [] || (b != [] && (a[0] < b[0] || (a[0] == b[0] && NotAfter(a[1..], b[1..]))))
  }

  lemma {:induction false} NotAfterTotal(a: string, b: string)
    ensures NotAfter(a, b) || NotAfter(b, a)
  {
    if a != [] && b != [] && a[0] == b[0] {
      NotAfterTotal(a[1..], b[1..]);
    }
  }

  lemma {:induction false} NotAfterTransitive(a: string, b: string, c: string)
    requires NotAfter(a, b) && NotAfter(b, c)
    ensures NotAfter(a, c)
  {
    if a != [] && b != [] && c != [] && a[0] == b[0] == c[0] {
      NotAfterTransitive(a[1..], b[1..], c[1..]);
    }
  }

  /// Equal strings in both directions are the same string.
  lemma {:induction false} NotAfterAntisymmetric(a: string, b: string)
    requires NotAfter(a, b) && NotAfter(b, a)
    ensures a == b
  {
    if a != [] && b != [] {
      NotAfterAntisymmetric(a[1..], b[1..]);
      assert a == [a[0]] + a[1..];
      assert b == [b[0]] + b[1..];
    }
  }
}
