/// server/index.js, the current version: weights 50 / 100 / 150 and a
/// collection of manual adjustments next to the day logs. The in-memory
/// document `db.data` is the class Db; each route handler is a method on it,
/// and the reads that are single expressions are functions.
module Server {
  import opened Seqs
  import opened Ledger
  import opened Text
  import Ranking
  import opened DayLogMachine

  /// Story 50, Post 100, Product 150.
  const Points := Weights(50, 100, 150)

  /// The largest accepted |delta| of a manual adjustment.
  const MaxDelta := 50000

  /// Stored notes and dates are cut to these lengths.
  const NoteLength := 300
  const DateLength := 10

  /// scoreOf: one of 0, 50, ..., 300; 0 exactly for an empty day and 300
  /// exactly for a day with all three activities.
  function ScoreOf(log: DayLog): (r: nat)
    ensures r <= 300 && r % 50 == 0
    ensures r == 0 <==> !log.story && !log.post && !log.product
    ensures r == 300 <==> log.story && log.post && log.product
  {
    DayScore(Points, log)
  }

  // ------------------------------------------------------------- usernames

  function UsernameHolder(username: string): Ambassador -> bool
  {
    (a: Ambassador) => Lower(a.username) == Lower(username)
  }

  /// The 409 test of ambassador creation: some stored username equals the
  /// new one once both are lower-cased.
  predicate UsernameTaken(ambassadors: seq<Ambassador>, username: string)
  {
    exists i :: 0 <= i < |ambassadors| && Lower(ambassadors[i].username) == Lower(username)
  }

  /// No two ambassadors share a username up to case.
  predicate UsernamesDistinct(ambassadors: seq<Ambassador>)
  {
    forall i, j :: 0 <= i < j < |ambassadors| ==> Lower(ambassadors[i].username) != Lower(ambassadors[j].username)
  }

  /// The avatar filter: an avatar is kept when it is empty, starts with
  /// http:// or https:// in any letter case, or starts with data:image/;
  /// anything else is replaced by "".
  function KeptAvatar(avatar: string): (r: string)
    ensures r == avatar || r == ""
    ensures r == avatar <==> avatar == "" || StartsWith(Lower(avatar), "http://")
                             || StartsWith(Lower(avatar), "https://") || StartsWith(avatar, "data:image/")
  {
    if avatar != "" && !StartsWith(Lower(avatar), "http://") && !StartsWith(Lower(avatar), "https://")
       && !StartsWith(avatar, "data:image/")
    then ""
    else avatar
  }

  /// The outcome of POST /api/admin/ambassador: the fields are trimmed,
  /// name, username and pin must be non-empty, the username must be new up
  /// to case. `freshId` stands for the random id.
  function Added(ambassadors: seq<Ambassador>, name: string, username: string, pin: string, avatar: string,
                 freshId: string): (r: Response<Ambassador>)
    ensures !r.NotFound?
    ensures r.Ok? ==> r.value.id == freshId && r.value.name != "" && r.value.username != "" && r.value.pin != ""
  {
    var n, u, p := Trim(name), Trim(username), Trim(pin);
    if n == "" || u == "" || p == "" then BadRequest
    else if FirstIndex(ambassadors, UsernameHolder(u)).Some? then Conflict
    else Ok(Ambassador(freshId, n, u, p, KeptAvatar(Trim(avatar))))
  }

  /// Creation answers 400 exactly when a required field is all white space,
  /// 409 exactly when the username is taken, and otherwise stores the
  /// trimmed fields under the fresh id.
  lemma AddedReply(ambassadors: seq<Ambassador>, name: string, username: string, pin: string, avatar: string,
                   freshId: string)
    ensures var r := Added(ambassadors, name, username, pin, avatar, freshId);
            var blank := Trim(name) == "" || Trim(username) == "" || Trim(pin) == "";
            (r == BadRequest <==> blank) &&
            (r == Conflict <==> !blank && UsernameTaken(ambassadors, Trim(username))) &&
            (r.Ok? <==> !blank && !UsernameTaken(ambassadors, Trim(username))) &&
            r != NotFound &&
            (r.Ok? ==> r.value.id == freshId && r.value.name == Trim(name) && r.value.username == Trim(username)
                       && r.value.pin == Trim(pin) && r.value.avatar == KeptAvatar(Trim(avatar)))
  {
    var u := Trim(username);
    if FirstIndex(ambassadors, UsernameHolder(u)).None? {
      assert forall j :: 0 <= j < |ambassadors| ==> !UsernameHolder(u)(ambassadors[j]);
    }
  }

  /// A successful creation keeps usernames distinct up to case.
  lemma AddedKeepsUsernamesDistinct(ambassadors: seq<Ambassador>, name: string, username: string, pin: string,
                                    avatar: string, freshId: string)
    requires UsernamesDistinct(ambassadors)
    requires Added(ambassadors, name, username, pin, avatar, freshId).Ok?
    ensures UsernamesDistinct(ambassadors + [Added(ambassadors, name, username, pin, avatar, freshId).value])
  {
    AddedReply(ambassadors, name, username, pin, avatar, freshId);
    var s := ambassadors + [Added(ambassadors, name, username, pin, avatar, freshId).value];
    forall i, j | 0 <= i < j < |s| ensures Lower(s[i].username) != Lower(s[j].username) {
      if j == |ambassadors| {
        assert s[i] == ambassadors[i];
      } else {
        assert s[i] == ambassadors[i] && s[j] == ambassadors[j];
      }
    }
  }

  /// Removing an ambassador keeps usernames distinct.
  lemma RemoveKeepsUsernamesDistinct(ambassadors: seq<Ambassador>, i: nat)
    requires i < |ambassadors| && UsernamesDistinct(ambassadors)
    ensures UsernamesDistinct(RemoveAt(ambassadors, i))
  {
    var r := RemoveAt(ambassadors, i);
    forall j, k | 0 <= j < k < |r| ensures Lower(r[j].username) != Lower(r[k].username) {
      var j', k' := if j < i then j else j + 1, if k < i then k else k + 1;
      assert r[j] == ambassadors[j'] && r[k] == ambassadors[k'];
    }
  }

  /// The invariant of the document: one log per (ambassador, date); every
  /// log and adjustment belongs to a stored ambassador; usernames are
  /// distinct up to case.
  ghost predicate Consistent(ambassadors: seq<Ambassador>, logs: seq<DayLog>, adjustments: seq<Adjustment>)
  {
    UniqueKeys(logs) && LogsOwned(ambassadors, logs) && AdjustmentsOwned(ambassadors, adjustments)
    && UsernamesDistinct(ambassadors)
  }

  /// Deleting an ambassador with the cascade keeps the invariant.
  lemma CascadeKeepsConsistent(ambassadors: seq<Ambassador>, logs: seq<DayLog>, adjustments: seq<Adjustment>, i: nat)
    requires i < |ambassadors| && Consistent(ambassadors, logs, adjustments)
    ensures Consistent(RemoveAt(ambassadors, i), WithoutLogsOf(logs, ambassadors[i].id),
                       WithoutAdjustmentsOf(adjustments, ambassadors[i].id))
  {
    CascadeKeepsOwnership(ambassadors, logs, adjustments, i);
    RemoveKeepsUsernamesDistinct(ambassadors, i);
    WithoutLogsKeepsKeysUnique(logs, ambassadors[i].id);
  }

  /// Appending an adjustment for a known ambassador keeps the invariant.
  lemma AppendAdjustmentKeepsConsistent(ambassadors: seq<Ambassador>, logs: seq<DayLog>, adjustments: seq<Adjustment>, x: Adjustment)
    requires Consistent(ambassadors, logs, adjustments) && Known(ambassadors, x.ambassadorId)
    ensures Consistent(ambassadors, logs, adjustments + [x])
  {
    assert forall a :: a in adjustments + [x] ==> a in adjustments || a == x;
  }

  /// Deleting an adjustment keeps the invariant.
  lemma RemoveAdjustmentKeepsConsistent(ambassadors: seq<Ambassador>, logs: seq<DayLog>, adjustments: seq<Adjustment>, i: nat)
    requires i < |adjustments| && Consistent(ambassadors, logs, adjustments)
    ensures Consistent(ambassadors, logs, RemoveAt(adjustments, i))
  {
    var rest := RemoveAt(adjustments, i);
    forall a | a in rest ensures a in adjustments {
      var j :| 0 <= j < |rest| && rest[j] == a;
      if j < i {
        assert adjustments[j] == a;
      } else {
        assert adjustments[j + 1] == a;
      }
    }
  }

  // ----------------------------------------------------------------- login

  function LoginMatch(username: string, pin: string): Ambassador -> bool
  {
    (a: Ambassador) => Lower(a.username) == Lower(Trim(username)) && a.pin == Trim(pin)
  }

  /// The ambassador branch of POST /api/login: the first ambassador whose
  /// lower-cased username is the trimmed, lower-cased input and whose pin is
  /// the trimmed input pin; None is the 401 answer.
  function Login(ambassadors: seq<Ambassador>, username: string, pin: string): (r: Option<nat>)
    ensures r.Some? ==> r.value < |ambassadors| && Lower(ambassadors[r.value].username) == Lower(Trim(username))
                        && ambassadors[r.value].pin == Trim(pin)
    ensures r.Some? ==> forall j :: 0 <= j < r.value ==> !LoginMatch(username, pin)(ambassadors[j])
    ensures r.None? <==> forall j :: 0 <= j < |ambassadors| ==> !LoginMatch(username, pin)(ambassadors[j])
  {
    FirstIndex(ambassadors, LoginMatch(username, pin))
  }

  /// An ambassador just created can log in with the username and pin given
  /// at creation, in any letter case and with any surrounding white space.
  lemma AddedThenLogin(ambassadors: seq<Ambassador>, name: string, username: string, pin: string, avatar: string,
                       freshId: string, loginName: string, loginPin: string)
    requires Added(ambassadors, name, username, pin, avatar, freshId).Ok?
    requires Lower(Trim(loginName)) == Lower(Trim(username)) && Trim(loginPin) == Trim(pin)
    ensures Login(ambassadors + [Added(ambassadors, name, username, pin, avatar, freshId).value], loginName, loginPin)
         == Some(|ambassadors|)
  {
    AddedReply(ambassadors, name, username, pin, avatar, freshId);
    var s := ambassadors + [Added(ambassadors, name, username, pin, avatar, freshId).value];
    assert LoginMatch(loginName, loginPin)(s[|ambassadors|]);
    forall j | 0 <= j < |ambassadors| ensures !LoginMatch(loginName, loginPin)(s[j]) {
      assert s[j] == ambassadors[j];
    }
    var r := Login(s, loginName, loginPin);
    assert r.Some?;
    assert LoginMatch(loginName, loginPin)(s[r.value]);
    assert r.value == |ambassadors|;
    assert r == Some(|ambassadors|);
  }

  // ------------------------------------------------------------ adjustments

  /// `Number.isFinite(d) && Math.abs(d) <= 50000`, where None stands for a
  /// delta that Number turns into NaN or an infinity.
  predicate DeltaAccepted(delta: Option<int>)
  {
    delta.Some? && -MaxDelta <= delta.value <= MaxDelta
  }

  /// The stored adjustment: the date cut to 10 characters, or today when
  /// none is given; the note cut to 300 characters.
  function NewAdjustment(freshId: string, ambassadorId: string, d: int, note: string, date: string, today: string): (r: Adjustment)
    ensures r.id == freshId && r.ambassadorId == ambassadorId && r.delta == d
    ensures |r.note| == (if |note| <= NoteLength then |note| else NoteLength) && r.note == note[..|r.note|]
    ensures date == "" ==> r.date == today
    ensures date != "" ==> |r.date| == (if |date| <= DateLength then |date| else DateLength) && r.date == date[..|r.date|]
  {
    Adjustment(freshId, ambassadorId, if date == "" then today else Take(date, DateLength), d, Take(note, NoteLength))
  }

  function AdjustmentIs(id: string): Adjustment -> bool
  {
    (a: Adjustment) => a.id == id
  }

  /// `adjustments.findIndex(a => a.id === id)`.
  function FindAdjustment(adjustments: seq<Adjustment>, id: string): (r: Option<nat>)
    ensures r.Some? ==> r.value < |adjustments| && adjustments[r.value].id == id
    ensures r.Some? ==> forall j :: 0 <= j < r.value ==> adjustments[j].id != id
    ensures r.None? <==> forall j :: 0 <= j < |adjustments| ==> adjustments[j].id != id
  {
    var r := FirstIndex(adjustments, AdjustmentIs(id));
    assert r.Some? ==> forall j :: 0 <= j < r.value ==> !AdjustmentIs(id)(adjustments[j]);
    assert r.None? <==> forall j :: 0 <= j < |adjustments| ==> !AdjustmentIs(id)(adjustments[j]);
    r
  }

  /// The adjustments GET /api/admin/adjustments lists before sorting: all
  /// of them when no ambassador is named, that ambassador's otherwise.
  function Selected(adjustments: seq<Adjustment>, ambassadorId: string): (r: seq<Adjustment>)
    ensures forall a :: a in r ==> a in adjustments && (ambassadorId == "" || a.ambassadorId == ambassadorId)
    ensures ambassadorId == "" ==> r == adjustments
    ensures ambassadorId != "" ==> forall a :: a in adjustments && a.ambassadorId == ambassadorId ==> a in r
  {
    FilterKeepsAll(adjustments, AdjustmentFor(ambassadorId));
    if ambassadorId == "" then adjustments else AdjustmentsOf(adjustments, ambassadorId)
  }

  /// The reply of POST /api/admin/adjust.
  datatype Adjusted = Adjusted(adjustment: Adjustment, total: int)

  /// The reply of GET /api/amb/:id/logs.
  datatype LogsView = LogsView(ambassador: Ambassador, logs: seq<DayLog>, total: int)

  // -------------------------------------------------------------- database

  class Db {
    var ambassadors: seq<Ambassador>
    var logs: seq<DayLog>
    var adjustments: seq<Adjustment>

    /// One log per (ambassador, date); every log and adjustment belongs to
    /// a stored ambassador; usernames are distinct up to case.
    ghost predicate Valid()
      reads this
    {
      Consistent(ambassadors, logs, adjustments)
    }

    /// The empty document the server starts from.
    constructor ()
      ensures Valid()
      ensures ambassadors == [] && logs == [] && adjustments == []
    {
      ambassadors, logs, adjustments := [], [], [];
    }

    /// ensureDayLog: the position of the (ambassador, date) log, appended
    /// empty when missing.
    method EnsureDayLog(ambassadorId: string, date: string) returns (i: nat)
      modifies this
      ensures Located(logs, i) == EnsureDay(old(logs), ambassadorId, date)
      ensures ambassadors == old(ambassadors) && adjustments == old(adjustments)
    {
      var found := FindLog(logs, ambassadorId, date);
      if found.Some? {
        i := found.value;
      } else {
        logs := logs + [NewLog(ambassadorId, date)];
        i := |logs| - 1;
      }
    }

    /// POST /api/admin/ambassador: the validation is Added; a new
    /// ambassador is pushed onto the collection.
    method AddAmbassador(name: string, username: string, pin: string, avatar: string, freshId: string)
      returns (r: Response<Ambassador>)
      requires Valid()
      modifies this
      ensures Valid()
      ensures r == Added(old(ambassadors), name, username, pin, avatar, freshId)
      ensures ambassadors == if r.Ok? then old(ambassadors) + [r.value] else old(ambassadors)
      ensures logs == old(logs) && adjustments == old(adjustments)
    {
      r := Added(ambassadors, name, username, pin, avatar, freshId);
      if r.Ok? {
        AddedKeepsUsernamesDistinct(ambassadors, name, username, pin, avatar, freshId);
        AppendKeepsOwnership(ambassadors, r.value, logs, adjustments);
        ambassadors := ambassadors + [r.value];
      }
    }

    /// DELETE /api/admin/ambassador/:id: removes the first ambassador with
    /// that id, every log and every adjustment of that id.
    method DeleteAmbassador(id: string) returns (r: Response<()>)
      requires Valid()
      modifies this
      ensures Valid()
      ensures r.Ok? || r.NotFound?
      ensures r.NotFound? <==> !Known(old(ambassadors), id)
      ensures r.NotFound? ==> ambassadors == old(ambassadors) && logs == old(logs) && adjustments == old(adjustments)
      ensures r.Ok? ==> ambassadors == RemoveAt(old(ambassadors), FindAmbassador(old(ambassadors), id).value)
                        && logs == WithoutLogsOf(old(logs), id)
                        && adjustments == WithoutAdjustmentsOf(old(adjustments), id)
      ensures forall who :: Total(Points, logs, adjustments, who)
                         == if r.Ok? && who == id then 0 else old(Total(Points, logs, adjustments, who))
    {
      var idx := FindAmbassador(ambassadors, id);
      if idx.None? {
        return NotFound;
      }
      var i := idx.value;
      CascadeKeepsConsistent(ambassadors, logs, adjustments, i);
      ghost var logsBefore, adjustmentsBefore := logs, adjustments;
      logs := WithoutLogsOf(logs, id);
      adjustments := WithoutAdjustmentsOf(adjustments, id);
      ambassadors := RemoveAt(ambassadors, i);
      forall who
        ensures Total(Points, logs, adjustments, who)
             == if who == id then 0 else Total(Points, logsBefore, adjustmentsBefore, who)
      {
        CascadeTotal(Points, logsBefore, adjustmentsBefore, id, who);
      }
      r := Ok(());
    }

    /// POST /api/admin/mark; an empty date means today.
    method Mark(ambassadorId: string, date: string, kind: string, today: string) returns (r: Response<DayLog>)
      requires Valid()
      modifies this
      ensures Valid()
      ensures Step(r, logs) == Marked(old(ambassadors), old(logs), ambassadorId, DayOf(date, today), kind)
      ensures ambassadors == old(ambassadors) && adjustments == old(adjustments)
    {
      var day := DayOf(date, today);
      MarkedInvariant(ambassadors, logs, ambassadorId, day, kind);
      if FindAmbassador(ambassadors, ambassadorId).None? {
        return NotFound;
      }
      var i := EnsureDayLog(ambassadorId, day);
      var a := ParseActivity(kind);
      if a.None? {
        return BadRequest;
      }
      if Flag(logs[i], a.value) {
        return Conflict;
      }
      var marked := WithFlag(logs[i], a.value, true);
      logs := logs[i := marked];
      r := Ok(marked);
    }

    /// POST /api/admin/unmark; an empty date means today.
    method Unmark(ambassadorId: string, date: string, kind: string, today: string) returns (r: Response<DayLog>)
      requires Valid()
      modifies this
      ensures Valid()
      ensures Step(r, logs) == Unmarked(old(ambassadors), old(logs), ambassadorId, DayOf(date, today), kind)
      ensures ambassadors == old(ambassadors) && adjustments == old(adjustments)
    {
      var day := DayOf(date, today);
      UnmarkedInvariant(ambassadors, logs, ambassadorId, day, kind);
      if FindAmbassador(ambassadors, ambassadorId).None? {
        return NotFound;
      }
      var found := FindLog(logs, ambassadorId, day);
      if found.None? {
        return NotFound;
      }
      var i := found.value;
      var a := ParseActivity(kind);
      if a.None? {
        return BadRequest;
      }
      var cleared := WithFlag(logs[i], a.value, false);
      logs := logs[i := cleared];
      r := Ok(cleared);
    }

    /// POST /api/admin/adjust: 404 for an unknown ambassador, 400 for a
    /// rejected delta, otherwise the adjustment is appended and the reply
    /// carries the ambassador's recomputed total.
    method Adjust(ambassadorId: string, delta: Option<int>, note: string, date: string, today: string, freshId: string)
      returns (r: Response<Adjusted>)
      requires Valid()
      modifies this
      ensures Valid()
      ensures r.NotFound? <==> !Known(old(ambassadors), ambassadorId)
      ensures r.BadRequest? <==> Known(old(ambassadors), ambassadorId) && !DeltaAccepted(delta)
      ensures r.Ok? <==> Known(old(ambassadors), ambassadorId) && DeltaAccepted(delta)
      ensures !r.Ok? ==> adjustments == old(adjustments)
      ensures r.Ok? ==> r.value.adjustment == NewAdjustment(freshId, ambassadorId, delta.value, note, date, today)
                        && adjustments == old(adjustments) + [r.value.adjustment]
      ensures r.Ok? ==> r.value.total == Total(Points, logs, adjustments, ambassadorId)
                        && r.value.total == old(Total(Points, logs, adjustments, ambassadorId)) + delta.value
      ensures ambassadors == old(ambassadors) && logs == old(logs)
    {
      if FindAmbassador(ambassadors, ambassadorId).None? {
        return NotFound;
      }
      if !DeltaAccepted(delta) {
        return BadRequest;
      }
      var adj := NewAdjustment(freshId, ambassadorId, delta.value, note, date, today);
      ghost var before := adjustments;
      adjustments := adjustments + [adj];
      AppendAdjustmentKeepsConsistent(ambassadors, logs, before, adj);
      AppendAdjustmentPoints(before, adj, ambassadorId);
      var total := LogPoints(Points, logs, ambassadorId) + AdjustmentPoints(adjustments, ambassadorId);
      r := Ok(Adjusted(adj, total));
    }

    /// GET /api/admin/adjustments: the selected adjustments sorted by date,
    /// equal dates in stored order.
    method ListAdjustments(ambassadorId: string) returns (r: seq<Adjustment>)
      ensures r == Ranking.Sort(Selected(adjustments, ambassadorId), AdjustmentNotLater)
      ensures Ranking.Sorted(r, AdjustmentNotLater)
      ensures multiset(r) == multiset(Selected(adjustments, ambassadorId))
      ensures forall k :: Ranking.Tied(r, AdjustmentNotLater, k) == Ranking.Tied(Selected(adjustments, ambassadorId), AdjustmentNotLater, k)
    {
      var list := Selected(adjustments, ambassadorId);
      var a := new Adjustment[|list|](i requires 0 <= i < |list| => list[i]);
      assert a[..] == list;
      Ranking.SortInPlace(a, AdjustmentNotLater);
      r := a[..];
      AdjustmentNotLaterPreorder();
      Ranking.SortSorted(list, AdjustmentNotLater);
      forall k {
        Ranking.SortStable(list, AdjustmentNotLater, k);
      }
    }

    /// DELETE /api/admin/adjustments/:id: removes the first adjustment with
    /// that id; its owner's total drops by its delta, nobody else's moves.
    method DeleteAdjustment(id: string) returns (r: Response<()>)
      requires Valid()
      modifies this
      ensures Valid()
      ensures r.Ok? || r.NotFound?
      ensures r.NotFound? <==> FindAdjustment(old(adjustments), id).None?
      ensures r.NotFound? ==> adjustments == old(adjustments)
      ensures r.Ok? ==> var i := FindAdjustment(old(adjustments), id).value;
                        adjustments == RemoveAt(old(adjustments), i)
                        && forall who :: AdjustmentPoints(adjustments, who)
                                      == old(AdjustmentPoints(adjustments, who))
                                         - (if old(adjustments)[i].ambassadorId == who then old(adjustments)[i].delta else 0)
      ensures ambassadors == old(ambassadors) && logs == old(logs)
    {
      var found := FindAdjustment(adjustments, id);
      if found.None? {
        return NotFound;
      }
      var i := found.value;
      ghost var before := adjustments;
      RemoveAdjustmentKeepsConsistent(ambassadors, logs, adjustments, i);
      adjustments := RemoveAt(adjustments, i);
      forall who
        ensures AdjustmentPoints(adjustments, who)
             == AdjustmentPoints(before, who) - (if before[i].ambassadorId == who then before[i].delta else 0)
      {
        RemoveAdjustmentPoints(before, i, who);
      }
      r := Ok(());
    }

    /// GET /api/leaderboard: every ambassador with the derived total,
    /// highest first, equal totals in stored order.
    method Leaderboard() returns (r: seq<Standing>)
      ensures r == Ranking.Sort(Standings(Points, ambassadors, logs, adjustments), HigherOrEqual)
      ensures forall i, j :: 0 <= i < j < |r| ==> r[i].total >= r[j].total
      ensures multiset(r) == multiset(Standings(Points, ambassadors, logs, adjustments))
      ensures forall x :: x in r ==> x.ambassador in ambassadors && x.total == Total(Points, logs, adjustments, x.ambassador.id)
    {
      var totals := Standings(Points, ambassadors, logs, adjustments);
      var a := new Standing[|totals|](i requires 0 <= i < |totals| => totals[i]);
      assert a[..] == totals;
      Ranking.SortInPlace(a, HigherOrEqual);
      r := a[..];
      RankedOrder(Points, ambassadors, logs, adjustments);
      RankedEntries(Points, ambassadors, logs, adjustments);
    }

    /// GET /api/amb/:id/logs: the ambassador, their logs sorted by date and
    /// their total, summed over the sorted logs.
    method AmbassadorLogs(id: string) returns (r: Response<LogsView>)
      ensures r.Ok? || r.NotFound?
      ensures r.NotFound? <==> !Known(ambassadors, id)
      ensures r.Ok? ==> r.value.ambassador == ambassadors[FindAmbassador(ambassadors, id).value]
      ensures r.Ok? ==> r.value.logs == Ranking.Sort(LogsOf(logs, id), LogNotLater)
                        && Ranking.Sorted(r.value.logs, LogNotLater)
                        && multiset(r.value.logs) == multiset(LogsOf(logs, id))
      ensures r.Ok? ==> r.value.total == Total(Points, logs, adjustments, id)
    {
      var found := FindAmbassador(ambassadors, id);
      if found.None? {
        return NotFound;
      }
      var stored := logs;
      var mine := LogsOf(stored, id);
      var a := new DayLog[|mine|](i requires 0 <= i < |mine| => mine[i]);
      assert a[..] == mine;
      Ranking.SortInPlace(a, LogNotLater);
      var sorted := a[..];
      var total := Sum(sorted, Scorer(Points)) + AdjustmentPoints(adjustments, id);
      LogsByDate(Points, stored, id);
      r := Ok(LogsView(ambassadors[found.value], sorted, total));
    }
  }
}
