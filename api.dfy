/// api/index.js, the older deployed version: weights 100 / 150 / 300 and
/// no adjustments, so a total is the sum of day scores alone. The document
/// `db.data` is the class Db with the two collections this version keeps.
module Api {
  import opened Seqs
  import opened Ledger
  import opened Text
  import Ranking
  import opened DayLogMachine

  /// Story 100, Post 150, Product 300.
  const Points := Weights(100, 150, 300)

  /// scoreOf: one of 0, 100, 150, 250, 300, 400, 450, 550; 0 exactly for an
  /// empty day and 550 exactly for a day with all three activities.
  function ScoreOf(log: DayLog): (r: nat)
    ensures r <= 550 && r % 50 == 0
    ensures r in {0, 100, 150, 250, 300, 400, 450, 550}
    ensures r == 0 <==> !log.story && !log.post && !log.product
    ensures r == 550 <==> log.story && log.post && log.product
  {
    DayScore(Points, log)
  }

  /// This version's total: day scores only.
  function TotalOf(logs: seq<DayLog>, ambassadorId: string): (r: int)
    ensures r == Total(Points, logs, [], ambassadorId)
    ensures 0 <= r <= 550 * |LogsOf(logs, ambassadorId)|
  {
    LogPointsBounds(Points, logs, ambassadorId);
    LogPoints(Points, logs, ambassadorId)
  }

  // ------------------------------------------------------------- usernames

  /// This version trims the stored username too before comparing.
  function UsernameHolder(username: string): Ambassador -> bool
  {
    (a: Ambassador) => Lower(Trim(a.username)) == Lower(username)
  }

  /// The 409 test of ambassador creation.
  predicate UsernameTaken(ambassadors: seq<Ambassador>, username: string)
  {
    exists i :: 0 <= i < |ambassadors| && Lower(Trim(ambassadors[i].username)) == Lower(username)
  }

  /// No two ambassadors share a trimmed username up to case.
  predicate UsernamesDistinct(ambassadors: seq<Ambassador>)
  {
    forall i, j :: 0 <= i < j < |ambassadors| ==>
      Lower(Trim(ambassadors[i].username)) != Lower(Trim(ambassadors[j].username))
  }

  /// The outcome of POST /api/admin/ambassador: the fields are trimmed,
  /// name, username and pin must be non-empty, the username must be new;
  /// the trimmed avatar is stored as given. `freshId` stands for the
  /// time-based id.
  function Added(ambassadors: seq<Ambassador>, name: string, username: string, pin: string, avatar: string,
                 freshId: string): (r: Response<Ambassador>)
    ensures !r.NotFound?
    ensures r.Ok? ==> r.value.id == freshId && r.value.name != "" && r.value.username != "" && r.value.pin != ""
  {
    var n, u, p := Trim(name), Trim(username), Trim(pin);
    if n == "" || u == "" || p == "" then BadRequest
    else if FirstIndex(ambassadors, UsernameHolder(u)).Some? then Conflict
    else Ok(Ambassador(freshId, n, u, p, Trim(avatar)))
  }

  /// Creation answers 400 exactly when a required field is all white space,
  /// 409 exactly when the username is taken, and otherwise stores the
  /// trimmed fields under the fresh id.
  lemma AddedReply(ambassadors: seq<Ambassador>, name: string, username: string, pin: string, avatar: string,
                   freshId: string)
    ensures var r := Added(ambassadors, name, username, pin, avatar, freshId);
            var blank := Trim(name) == "" || Trim(username) == "" || Trim(pin) == "";
            (r == BadRequest <==> blank) &&
            (r == Conflict <==> !blank && UsernameTaken(ambassadors, Trim(username))) &&
            (r.Ok? <==> !blank && !UsernameTaken(ambassadors, Trim(username))) &&
            r != NotFound &&
            (r.Ok? ==> r.value == Ambassador(freshId, Trim(name), Trim(username), Trim(pin), Trim(avatar)))
  {
    var u := Trim(username);
    if FirstIndex(ambassadors, UsernameHolder(u)).None? {
      assert forall j :: 0 <= j < |ambassadors| ==> !UsernameHolder(u)(ambassadors[j]);
    }
  }

  /// A successful creation keeps usernames distinct.
  lemma AddedKeepsUsernamesDistinct(ambassadors: seq<Ambassador>, name: string, username: string, pin: string,
                                    avatar: string, freshId: string)
    requires UsernamesDistinct(ambassadors)
    requires Added(ambassadors, name, username, pin, avatar, freshId).Ok?
    ensures UsernamesDistinct(ambassadors + [Added(ambassadors, name, username, pin, avatar, freshId).value])
  {
    AddedReply(ambassadors, name, username, pin, avatar, freshId);
    TrimIdempotent(username);
    var s := ambassadors + [Added(ambassadors, name, username, pin, avatar, freshId).value];
    forall i, j | 0 <= i < j < |s| ensures Lower(Trim(s[i].username)) != Lower(Trim(s[j].username)) {
      if j == |ambassadors| {
        assert s[i] == ambassadors[i];
      } else {
        assert s[i] == ambassadors[i] && s[j] == ambassadors[j];
      }
    }
  }

  lemma RemoveKeepsUsernamesDistinct(ambassadors: seq<Ambassador>, i: nat)
    requires i < |ambassadors| && UsernamesDistinct(ambassadors)
    ensures UsernamesDistinct(RemoveAt(ambassadors, i))
  {
    var r := RemoveAt(ambassadors, i);
    forall j, k | 0 <= j < k < |r| ensures Lower(Trim(r[j].username)) != Lower(Trim(r[k].username)) {
      var j', k' := if j < i then j else j + 1, if k < i then k else k + 1;
      assert r[j] == ambassadors[j'] && r[k] == ambassadors[k'];
    }
  }

  /// The invariant of the document: one log per (ambassador, date), every
  /// log belongs to a stored ambassador, usernames are distinct.
  ghost predicate Consistent(ambassadors: seq<Ambassador>, logs: seq<DayLog>)
  {
    UniqueKeys(logs) && LogsOwned(ambassadors, logs) && UsernamesDistinct(ambassadors)
  }

  /// Deleting an ambassador with its logs keeps the invariant.
  lemma CascadeKeepsConsistent(ambassadors: seq<Ambassador>, logs: seq<DayLog>, i: nat)
    requires i < |ambassadors| && Consistent(ambassadors, logs)
    ensures Consistent(RemoveAt(ambassadors, i), WithoutLogsOf(logs, ambassadors[i].id))
  {
    CascadeKeepsOwnership(ambassadors, logs, [], i);
    RemoveKeepsUsernamesDistinct(ambassadors, i);
    WithoutLogsKeepsKeysUnique(logs, ambassadors[i].id);
  }

  // ----------------------------------------------------------------- login

  function LoginMatch(username: string, pin: string): Ambassador -> bool
  {
    (a: Ambassador) => Lower(Trim(a.username)) == Lower(Trim(username)) && Trim(a.pin) == Trim(pin)
  }

  /// The ambassador branch of POST /api/login: the first ambassador whose
  /// trimmed, lower-cased username and trimmed pin equal the trimmed,
  /// lower-cased input and the trimmed input pin; None is the 401 answer.
  function Login(ambassadors: seq<Ambassador>, username: string, pin: string): (r: Option<nat>)
    ensures r.Some? ==> r.value < |ambassadors| && Lower(Trim(ambassadors[r.value].username)) == Lower(Trim(username))
                        && Trim(ambassadors[r.value].pin) == Trim(pin)
    ensures r.Some? ==> forall j :: 0 <= j < r.value ==> !LoginMatch(username, pin)(ambassadors[j])
    ensures r.None? <==> forall j :: 0 <= j < |ambassadors| ==> !LoginMatch(username, pin)(ambassadors[j])
  {
    FirstIndex(ambassadors, LoginMatch(username, pin))
  }

  /// An ambassador just created can log in with the username and pin given
  /// at creation, in any letter case and with any surrounding white space.
  lemma AddedThenLogin(ambassadors: seq<Ambassador>, name: string, username: string, pin: string, avatar: string,
                       freshId: string, loginName: string, loginPin: string)
    requires Added(ambassadors, name, username, pin, avatar, freshId).Ok?
    requires Lower(Trim(loginName)) == Lower(Trim(username)) && Trim(loginPin) == Trim(pin)
    ensures Login(ambassadors + [Added(ambassadors, name, username, pin, avatar, freshId).value], loginName, loginPin)
         == Some(|ambassadors|)
  {
    AddedReply(ambassadors, name, username, pin, avatar, freshId);
    TrimIdempotent(username);
    TrimIdempotent(pin);
    var s := ambassadors + [Added(ambassadors, name, username, pin, avatar, freshId).value];
    assert LoginMatch(loginName, loginPin)(s[|ambassadors|]);
    forall j | 0 <= j < |ambassadors| ensures !LoginMatch(loginName, loginPin)(s[j]) {
      assert s[j] == ambassadors[j];
    }
    var r := Login(s, loginName, loginPin);
    assert r.Some?;
    assert LoginMatch(loginName, loginPin)(s[r.value]);
    assert r.value == |ambassadors|;
    assert r == Some(|ambassadors|);
  }

  /// The reply of GET /api/amb/:id/logs.
  datatype LogsView = LogsView(ambassador: Ambassador, logs: seq<DayLog>, total: int)

  // -------------------------------------------------------------- database

  class Db {
    var ambassadors: seq<Ambassador>
    var logs: seq<DayLog>

    ghost predicate Valid()
      reads this
    {
      Consistent(ambassadors, logs)
    }

    /// The empty document the server starts from.
    constructor ()
      ensures Valid()
      ensures ambassadors == [] && logs == []
    {
      ambassadors, logs := [], [];
    }

    /// ensureDayLog: the position of the (ambassador, date) log, appended
    /// empty when missing.
    method EnsureDayLog(ambassadorId: string, date: string) returns (i: nat)
      modifies this
      ensures Located(logs, i) == EnsureDay(old(logs), ambassadorId, date)
      ensures ambassadors == old(ambassadors)
    {
      var found := FindLog(logs, ambassadorId, date);
      if found.Some? {
        i := found.value;
      } else {
        logs := logs + [NewLog(ambassadorId, date)];
        i := |logs| - 1;
      }
    }

    /// POST /api/admin/ambassador: the validation is Added; a new
    /// ambassador is pushed onto the collection.
    method AddAmbassador(name: string, username: string, pin: string, avatar: string, freshId: string)
      returns (r: Response<Ambassador>)
      requires Valid()
      modifies this
      ensures Valid()
      ensures r == Added(old(ambassadors), name, username, pin, avatar, freshId)
      ensures ambassadors == if r.Ok? then old(ambassadors) + [r.value] else old(ambassadors)
      ensures logs == old(logs)
    {
      r := Added(ambassadors, name, username, pin, avatar, freshId);
      if r.Ok? {
        AddedKeepsUsernamesDistinct(ambassadors, name, username, pin, avatar, freshId);
        AppendKeepsOwnership(ambassadors, r.value, logs, []);
        ambassadors := ambassadors + [r.value];
      }
    }

    /// DELETE /api/admin/ambassador/:id: removes the first ambassador with
    /// that id and every log of that id.
    method DeleteAmbassador(id: string) returns (r: Response<()>)
      requires Valid()
      modifies this
      ensures Valid()
      ensures r.Ok? || r.NotFound?
      ensures r.NotFound? <==> !Known(old(ambassadors), id)
      ensures r.NotFound? ==> ambassadors == old(ambassadors) && logs == old(logs)
      ensures r.Ok? ==> ambassadors == RemoveAt(old(ambassadors), FindAmbassador(old(ambassadors), id).value)
                        && logs == WithoutLogsOf(old(logs), id)
      ensures forall who :: LogsOf(logs, who) == if r.Ok? && who == id then [] else old(LogsOf(logs, who))
    {
      var idx := FindAmbassador(ambassadors, id);
      if idx.None? {
        return NotFound;
      }
      var i := idx.value;
      var ambId := ambassadors[i].id;
      CascadeKeepsConsistent(ambassadors, logs, i);
      ghost var before := logs;
      ambassadors := RemoveAt(ambassadors, i);
      logs := WithoutLogsOf(logs, ambId);
      forall who ensures LogsOf(logs, who) == if who == id then [] else LogsOf(before, who) {
        WithoutLogsOfLogs(before, id, who);
      }
      r := Ok(());
    }

    /// POST /api/admin/mark; an empty date means today.
    method Mark(ambassadorId: string, date: string, kind: string, today: string) returns (r: Response<DayLog>)
      requires Valid()
      modifies this
      ensures Valid()
      ensures Step(r, logs) == Marked(old(ambassadors), old(logs), ambassadorId, DayOf(date, today), kind)
      ensures ambassadors == old(ambassadors)
    {
      var day := DayOf(date, today);
      MarkedInvariant(ambassadors, logs, ambassadorId, day, kind);
      if FindAmbassador(ambassadors, ambassadorId).None? {
        return NotFound;
      }
      var i := EnsureDayLog(ambassadorId, day);
      var a := ParseActivity(kind);
      if a.None? {
        return BadRequest;
      }
      if Flag(logs[i], a.value) {
        return Conflict;
      }
      var marked := WithFlag(logs[i], a.value, true);
      logs := logs[i := marked];
      r := Ok(marked);
    }

    /// POST /api/admin/unmark; an empty date means today.
    method Unmark(ambassadorId: string, date: string, kind: string, today: string) returns (r: Response<DayLog>)
      requires Valid()
      modifies this
      ensures Valid()
      ensures Step(r, logs) == Unmarked(old(ambassadors), old(logs), ambassadorId, DayOf(date, today), kind)
      ensures ambassadors == old(ambassadors)
    {
      var day := DayOf(date, today);
      UnmarkedInvariant(ambassadors, logs, ambassadorId, day, kind);
      if FindAmbassador(ambassadors, ambassadorId).None? {
        return NotFound;
      }
      var found := FindLog(logs, ambassadorId, day);
      if found.None? {
        return NotFound;
      }
      var i := found.value;
      var a := ParseActivity(kind);
      if a.None? {
        return BadRequest;
      }
      var cleared := WithFlag(logs[i], a.value, false);
      logs := logs[i := cleared];
      r := Ok(cleared);
    }

    /// GET /api/leaderboard: every ambassador with the sum of their day
    /// scores, highest first, equal totals in stored order.
    method Leaderboard() returns (r: seq<Standing>)
      ensures r == Ranking.Sort(Standings(Points, ambassadors, logs, []), HigherOrEqual)
      ensures forall i, j :: 0 <= i < j < |r| ==> r[i].total >= r[j].total
      ensures multiset(r) == multiset(Standings(Points, ambassadors, logs, []))
      ensures forall x :: x in r ==> x.ambassador in ambassadors && x.total == TotalOf(logs, x.ambassador.id)
    {
      var totals := Standings(Points, ambassadors, logs, []);
      var a := new Standing[|totals|](i requires 0 <= i < |totals| => totals[i]);
      assert a[..] == totals;
      Ranking.SortInPlace(a, HigherOrEqual);
      r := a[..];
      RankedOrder(Points, ambassadors, logs, []);
      RankedEntries(Points, ambassadors, logs, []);
    }

    /// GET /api/amb/:id/logs: the ambassador, their logs sorted by date and
    /// their total, summed over the sorted logs.
    method AmbassadorLogs(id: string) returns (r: Response<LogsView>)
      ensures r.Ok? || r.NotFound?
      ensures r.NotFound? <==> !Known(ambassadors, id)
      ensures r.Ok? ==> r.value.ambassador == ambassadors[FindAmbassador(ambassadors, id).value]
      ensures r.Ok? ==> r.value.logs == Ranking.Sort(LogsOf(logs, id), LogNotLater)
                        && Ranking.Sorted(r.value.logs, LogNotLater)
                        && multiset(r.value.logs) == multiset(LogsOf(logs, id))
      ensures r.Ok? ==> r.value.total == TotalOf(logs, id)
    {
      var found := FindAmbassador(ambassadors, id);
      if found.None? {
        return NotFound;
      }
      var stored := logs;
      var mine := LogsOf(stored, id);
      var a := new DayLog[|mine|](i requires 0 <= i < |mine| => mine[i]);
      assert a[..] == mine;
      Ranking.SortInPlace(a, LogNotLater);
      var sorted := a[..];
      var total := Sum(sorted, Scorer(Points));
      LogsByDate(Points, stored, id);
      r := Ok(LogsView(ambassadors[found.value], sorted, total));
    }
  }
}
