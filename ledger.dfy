/// The scoring and ledger engine that both server versions inline in their
/// route handlers: the stored records, the score of one day, the totals
/// derived from logs and adjustments, the lazy per-day log, and the mark /
/// unmark transitions on the log collection.
module Ledger {
  import opened Seqs
  import Text
  import Ranking

  /// An entry of `ambassadors`.
  datatype Ambassador = Ambassador(id: string, name: string, username: string, pin: string, avatar: string)

  /// An entry of `logs`: one ambassador's activity flags for one date.
  datatype DayLog = DayLog(id: string, ambassadorId: string, date: string, story: bool, post: bool, product: bool)

  /// An entry of `adjustments`: a signed manual correction.
  datatype Adjustment = Adjustment(id: string, ambassadorId: string, date: string, delta: int, note: string)

  /// The three activity types, sent as "S", "P" and "U".
  datatype Activity = Story | Post | Product

  /// What a handler answers: a body with status 200 or 201, or 404, 409, 400.
  datatype Response<T> = Ok(value: T) | NotFound | Conflict | BadRequest

  /// Points per activity; the two server versions use different ones.
  datatype Weights = Weights(story: nat, post: nat, product: nat)

  /// `date || todayStr()`: an absent or empty date means today.
  function DayOf(date: string, today: string): string
  {
    if date == "" then today else date
  }

  function ParseActivity(t: string): Option<Activity>
  {
    if t == "S" then Some(Story)
    else if t == "P" then Some(Post)
    else if t == "U" then Some(Product)
    else None
  }

  function Flag(log: DayLog, a: Activity): bool
  {
    match a
    case Story => log.story
    case Post => log.post
    case Product => log.product
  }

  /// The log with one flag set to `on`; the key and the other flags are kept.
  function WithFlag(log: DayLog, a: Activity, on: bool): (r: DayLog)
    ensures Flag(r, a) == on
    ensures forall b :: b != a ==> Flag(r, b) == Flag(log, b)
    ensures r.id == log.id && r.ambassadorId == log.ambassadorId && r.date == log.date
  {
    match a
    case Story => log.(story := on)
    case Post => log.(post := on)
    case Product => log.(product := on)
  }

  function Weight(w: Weights, a: Activity): nat
  {
    match a
    case Story => w.story
    case Post => w.post
    case Product => w.product
  }

  /// scoreOf: the weights of the flags that are set.
  function DayScore(w: Weights, log: DayLog): (r: nat)
    ensures r <= w.story + w.post + w.product
    ensures !log.story && !log.post && !log.product ==> r == 0
    ensures log.story && log.post && log.product ==> r == w.story + w.post + w.product
  {
    (if log.story then w.story else 0) + (if log.post then w.post else 0) + (if log.product then w.product else 0)
  }

  /// Setting or clearing one flag moves the day's score by that flag's weight.
  lemma WithFlagScore(w: Weights, log: DayLog, a: Activity, on: bool)
    ensures DayScore(w, WithFlag(log, a, on))
         == DayScore(w, log) - (if Flag(log, a) then Weight(w, a) else 0) + (if on then Weight(w, a) else 0)
  {
  }

  // ---------------------------------------------------------------- lookups

  predicate IsAmbassador(a: Ambassador, id: string) { a.id == id }

  function AmbassadorIs(id: string): Ambassador -> bool
  {
    a => IsAmbassador(a, id)
  }

  predicate Known(ambassadors: seq<Ambassador>, id: string)
  {
    exists i :: 0 <= i < |ambassadors| && IsAmbassador(ambassadors[i], id)
  }

  /// `ambassadors.find(a => a.id === id)`, as a position.
  function FindAmbassador(ambassadors: seq<Ambassador>, id: string): (r: Option<nat>)
    ensures r.Some? ==> r.value < |ambassadors| && ambassadors[r.value].id == id
    ensures r.Some? ==> forall j :: 0 <= j < r.value ==> ambassadors[j].id != id
    ensures r.None? <==> !Known(ambassadors, id)
  {
    var r := FirstIndex(ambassadors, AmbassadorIs(id));
    assert r.None? <==> forall j :: 0 <= j < |ambassadors| ==> !AmbassadorIs(id)(ambassadors[j]);
    r
  }

  predicate HasKey(log: DayLog, ambassadorId: string, date: string)
  {
    log.ambassadorId == ambassadorId && log.date == date
  }

  function KeyIs(ambassadorId: string, date: string): DayLog -> bool
  {
    l => HasKey(l, ambassadorId, date)
  }

  /// `logs.find(l => l.ambassadorId === id && l.date === date)`, as a position.
  function FindLog(logs: seq<DayLog>, ambassadorId: string, date: string): (r: Option<nat>)
    ensures r.Some? ==> r.value < |logs| && HasKey(logs[r.value], ambassadorId, date)
    ensures r.Some? ==> forall j :: 0 <= j < r.value ==> !HasKey(logs[j], ambassadorId, date)
    ensures r.None? <==> forall j :: 0 <= j < |logs| ==> !HasKey(logs[j], ambassadorId, date)
  {
    var r := FirstIndex(logs, KeyIs(ambassadorId, date));
    assert r.Some? ==> forall j :: 0 <= j < r.value ==> !KeyIs(ambassadorId, date)(logs[j]);
    assert r.None? <==> forall j :: 0 <= j < |logs| ==> !KeyIs(ambassadorId, date)(logs[j]);
    r
  }

  /// Rewriting a log without touching its key does not move any lookup.
  lemma FindLogUpdate(logs: seq<DayLog>, i: nat, x: DayLog, ambassadorId: string, date: string)
    requires i < |logs| && x.ambassadorId == logs[i].ambassadorId && x.date == logs[i].date
    ensures FindLog(logs[i := x], ambassadorId, date) == FindLog(logs, ambassadorId, date)
  {
    var r, r' := FindLog(logs, ambassadorId, date), FindLog(logs[i := x], ambassadorId, date);
    assert forall j :: 0 <= j < |logs| ==>
      HasKey(logs[i := x][j], ambassadorId, date) == HasKey(logs[j], ambassadorId, date);
  }

  /// Appending a log leaves every earlier lookup where it was.
  lemma FindLogAppend(logs: seq<DayLog>, x: DayLog, ambassadorId: string, date: string)
    ensures FindLog(logs + [x], ambassadorId, date)
         == if FindLog(logs, ambassadorId, date).Some? then FindLog(logs, ambassadorId, date)
            else if HasKey(x, ambassadorId, date) then Some(|logs|)
            else None
  {
    var s := logs + [x];
    assert forall j :: 0 <= j < |logs| ==> s[j] == logs[j];
    var r, r' := FindLog(logs, ambassadorId, date), FindLog(s, ambassadorId, date);
    if r.Some? {
      assert HasKey(s[r.value], ambassadorId, date);
    } else if HasKey(x, ambassadorId, date) {
      assert HasKey(s[|logs|], ambassadorId, date);
    }
  }

  /// What `/api/admin/ambassadors` shows for one flag of one day: the
  /// stored flag when that day has a log, false otherwise.
  function DayFlag(logs: seq<DayLog>, ambassadorId: string, date: string, a: Activity): bool
  {
    match FindLog(logs, ambassadorId, date)
    case Some(i) => Flag(logs[i], a)
    case None => false
  }

  /// A row of `/api/admin/ambassadors`: the ambassador with the day's flags.
  datatype RosterRow = RosterRow(ambassador: Ambassador, story: bool, post: bool, product: bool)

  function Roster(ambassadors: seq<Ambassador>, logs: seq<DayLog>, date: string): (r: seq<RosterRow>)
    ensures |r| == |ambassadors|
    ensures forall i :: 0 <= i < |r| ==> r[i].ambassador == ambassadors[i]
    ensures forall i :: 0 <= i < |r| ==>
              r[i].story == DayFlag(logs, ambassadors[i].id, date, Story) &&
              r[i].post == DayFlag(logs, ambassadors[i].id, date, Post) &&
              r[i].product == DayFlag(logs, ambassadors[i].id, date, Product)
  {
    seq(|ambassadors|, i requires 0 <= i < |ambassadors| =>
      var id := ambassadors[i].id;
      RosterRow(ambassadors[i], DayFlag(logs, id, date, Story), DayFlag(logs, id, date, Post),
                DayFlag(logs, id, date, Product)))
  }

  // --------------------------------------------------------- ensureDayLog

  /// No two logs share an (ambassadorId, date) key.
  predicate UniqueKeys(logs: seq<DayLog>)
  {
    forall i, j :: 0 <= i < j < |logs| ==> !HasKey(logs[j], logs[i].ambassadorId, logs[i].date)
  }

  /// The log ensureDayLog creates: id `ambassadorId-date`, nothing marked.
  function NewLog(ambassadorId: string, date: string): DayLog
  {
    DayLog(ambassadorId + "-" + date, ambassadorId, date, false, false, false)
  }

  /// The log collection after ensureDayLog, with the position of the log it
  /// returns.
  datatype Located = Located(logs: seq<DayLog>, at: nat)

  function EnsureDay(logs: seq<DayLog>, ambassadorId: string, date: string): (r: Located)
    ensures r.at < |r.logs| && HasKey(r.logs[r.at], ambassadorId, date)
    ensures FindLog(r.logs, ambassadorId, date) == Some(r.at)
    ensures |logs| <= |r.logs| <= |logs| + 1 && r.logs[..|logs|] == logs
    ensures |r.logs| == |logs| + 1 <==> FindLog(logs, ambassadorId, date).None?
    ensures |r.logs| == |logs| + 1 ==> r.at == |logs| && r.logs[r.at] == NewLog(ambassadorId, date)
  {
    match FindLog(logs, ambassadorId, date)
    case Some(i) => Located(logs, i)
    case None =>
      var logs' := logs + [NewLog(ambassadorId, date)];
      assert logs'[..|logs|] == logs;
      Located(logs', |logs|)
  }

  lemma EnsureDayKeepsKeysUnique(logs: seq<DayLog>, ambassadorId: string, date: string)
    requires UniqueKeys(logs)
    ensures UniqueKeys(EnsureDay(logs, ambassadorId, date).logs)
  {
    var r := EnsureDay(logs, ambassadorId, date).logs;
    if |r| > |logs| {
      forall i, j | 0 <= i < j < |r| ensures !HasKey(r[j], r[i].ambassadorId, r[i].date) {
        if j == |logs| {
          assert r[i] == logs[i];
        } else {
          assert r[i] == logs[i] && r[j] == logs[j];
        }
      }
    }
  }

  // ---------------------------------------------------------------- totals

  function OwnedBy(ambassadorId: string): DayLog -> bool
  {
    (l: DayLog) => l.ambassadorId == ambassadorId
  }

  function AdjustmentFor(ambassadorId: string): Adjustment -> bool
  {
    (a: Adjustment) => a.ambassadorId == ambassadorId
  }

  function Scorer(w: Weights): DayLog -> int
  {
    l => DayScore(w, l)
  }

  function Delta(a: Adjustment): int { a.delta }

  /// `logs.filter(l => l.ambassadorId === id)`.
  function LogsOf(logs: seq<DayLog>, ambassadorId: string): seq<DayLog>
  {
    Filter(logs, OwnedBy(ambassadorId))
  }

  /// `adjustments.filter(a => a.ambassadorId === id)`.
  function AdjustmentsOf(adjustments: seq<Adjustment>, ambassadorId: string): seq<Adjustment>
  {
    Filter(adjustments, AdjustmentFor(ambassadorId))
  }

  /// The sum of scoreOf over one ambassador's logs.
  function LogPoints(w: Weights, logs: seq<DayLog>, ambassadorId: string): int
  {
    Sum(LogsOf(logs, ambassadorId), Scorer(w))
  }

  /// sumAdjustments: the sum of one ambassador's deltas.
  function AdjustmentPoints(adjustments: seq<Adjustment>, ambassadorId: string): int
  {
    Sum(AdjustmentsOf(adjustments, ambassadorId), Delta)
  }

  /// An ambassador's total: day scores plus adjustments, always derived.
  function Total(w: Weights, logs: seq<DayLog>, adjustments: seq<Adjustment>, ambassadorId: string): int
  {
    LogPoints(w, logs, ambassadorId) + AdjustmentPoints(adjustments, ambassadorId)
  }

  /// Day points are never negative and at most the daily maximum per log.
  lemma {:induction false} LogPointsBounds(w: Weights, logs: seq<DayLog>, ambassadorId: string)
    ensures 0 <= LogPoints(w, logs, ambassadorId) <= |LogsOf(logs, ambassadorId)| * (w.story + w.post + w.product)
  {
    SumBounds(LogsOf(logs, ambassadorId), w);
  }

  lemma {:induction false} SumBounds(s: seq<DayLog>, w: Weights)
    ensures 0 <= Sum(s, Scorer(w)) <= |s| * (w.story + w.post + w.product)
  {
    if s != [] {
      var front, last, most := s[..|s| - 1], s[|s| - 1], w.story + w.post + w.product;
      SumBounds(front, w);
      assert Sum(s, Scorer(w)) == Sum(front, Scorer(w)) + DayScore(w, last);
      assert DayScore(w, last) <= most;
      MultiplyStep(|front|, most);
    }
  }

  lemma MultiplyStep(n: nat, m: nat)
    ensures (n + 1) * m == n * m + m
  {
  }

  /// ensureDayLog changes nobody's points: it adds at most an empty log.
  lemma EnsureDayPoints(w: Weights, logs: seq<DayLog>, ambassadorId: string, date: string, who: string)
    ensures LogPoints(w, EnsureDay(logs, ambassadorId, date).logs, who) == LogPoints(w, logs, who)
  {
    var r := EnsureDay(logs, ambassadorId, date).logs;
    if |r| > |logs| {
      assert r == logs + [NewLog(ambassadorId, date)];
      SumFilterAppend(logs, OwnedBy(who), Scorer(w), NewLog(ambassadorId, date));
    }
  }

  /// Rewriting one log's flags moves only its owner's points, by the change
  /// in that day's score.
  lemma UpdatePoints(w: Weights, logs: seq<DayLog>, i: nat, x: DayLog, who: string)
    requires i < |logs| && x.ambassadorId == logs[i].ambassadorId
    ensures LogPoints(w, logs[i := x], who)
         == LogPoints(w, logs, who)
            + (if logs[i].ambassadorId == who then DayScore(w, x) - DayScore(w, logs[i]) else 0)
  {
    SumFilterUpdate(logs, OwnedBy(who), Scorer(w), i, x);
  }

  /// Appending an adjustment adds its delta to its owner's total only.
  lemma AppendAdjustmentPoints(adjustments: seq<Adjustment>, x: Adjustment, who: string)
    ensures AdjustmentPoints(adjustments + [x], who)
         == AdjustmentPoints(adjustments, who) + (if x.ambassadorId == who then x.delta else 0)
  {
    SumFilterAppend(adjustments, AdjustmentFor(who), Delta, x);
  }

  /// Removing an adjustment takes its delta off its owner's total only.
  lemma RemoveAdjustmentPoints(adjustments: seq<Adjustment>, i: nat, who: string)
    requires i < |adjustments|
    ensures AdjustmentPoints(RemoveAt(adjustments, i), who)
         == AdjustmentPoints(adjustments, who) - (if adjustments[i].ambassadorId == who then adjustments[i].delta else 0)
  {
    SumFilterRemoveAt(adjustments, AdjustmentFor(who), Delta, i);
  }

  // ------------------------------------------------------------ invariants

  /// Every log belongs to a stored ambassador.
  predicate LogsOwned(ambassadors: seq<Ambassador>, logs: seq<DayLog>)
  {
    forall l :: l in logs ==> Known(ambassadors, l.ambassadorId)
  }

  /// Every adjustment belongs to a stored ambassador.
  predicate AdjustmentsOwned(ambassadors: seq<Ambassador>, adjustments: seq<Adjustment>)
  {
    forall a :: a in adjustments ==> Known(ambassadors, a.ambassadorId)
  }

  /// Adding an ambassador keeps every record owned.
  lemma AppendKeepsOwnership(ambassadors: seq<Ambassador>, x: Ambassador, logs: seq<DayLog>, adjustments: seq<Adjustment>)
    requires LogsOwned(ambassadors, logs) && AdjustmentsOwned(ambassadors, adjustments)
    ensures LogsOwned(ambassadors + [x], logs) && AdjustmentsOwned(ambassadors + [x], adjustments)
  {
    forall id | Known(ambassadors, id) ensures Known(ambassadors + [x], id) {
      var j :| 0 <= j < |ambassadors| && IsAmbassador(ambassadors[j], id);
      assert (ambassadors + [x])[j] == ambassadors[j];
    }
  }

  // ---------------------------------------------------------------- cascade

  function NotOwnedBy(ambassadorId: string): DayLog -> bool
  {
    (l: DayLog) => l.ambassadorId != ambassadorId
  }

  function NotFor(ambassadorId: string): Adjustment -> bool
  {
    (a: Adjustment) => a.ambassadorId != ambassadorId
  }

  /// `logs.filter(l => l.ambassadorId !== id)`.
  function WithoutLogsOf(logs: seq<DayLog>, ambassadorId: string): (r: seq<DayLog>)
    ensures forall l :: l in r <==> l in logs && l.ambassadorId != ambassadorId
  {
    var r := Filter(logs, NotOwnedBy(ambassadorId));
    FilterKeepsAll(logs, NotOwnedBy(ambassadorId));
    r
  }

  /// `adjustments.filter(a => a.ambassadorId !== id)`.
  function WithoutAdjustmentsOf(adjustments: seq<Adjustment>, ambassadorId: string): (r: seq<Adjustment>)
    ensures forall a :: a in r <==> a in adjustments && a.ambassadorId != ambassadorId
  {
    var r := Filter(adjustments, NotFor(ambassadorId));
    FilterKeepsAll(adjustments, NotFor(ambassadorId));
    r
  }

  /// After the cascade the removed ambassador owns no logs, and every other
  /// ambassador owns exactly the logs they owned before, in the same order.
  lemma WithoutLogsOfLogs(logs: seq<DayLog>, removed: string, who: string)
    ensures LogsOf(WithoutLogsOf(logs, removed), who) == if who == removed then [] else LogsOf(logs, who)
  {
    if who == removed {
      FilterExclusive(logs, OwnedBy(who), NotOwnedBy(removed));
    } else {
      FilterNarrow(logs, OwnedBy(who), NotOwnedBy(removed));
    }
  }

  lemma WithoutAdjustmentsOfAdjustments(adjustments: seq<Adjustment>, removed: string, who: string)
    ensures AdjustmentsOf(WithoutAdjustmentsOf(adjustments, removed), who)
         == if who == removed then [] else AdjustmentsOf(adjustments, who)
  {
    if who == removed {
      FilterExclusive(adjustments, AdjustmentFor(who), NotFor(removed));
    } else {
      FilterNarrow(adjustments, AdjustmentFor(who), NotFor(removed));
    }
  }

  /// Filtering logs keeps one log per key.
  lemma {:induction false} FilterKeepsKeysUnique(logs: seq<DayLog>, p: DayLog -> bool)
    requires UniqueKeys(logs)
    ensures UniqueKeys(Filter(logs, p))
  {
    if logs != [] {
      var front, last := logs[..|logs| - 1], logs[|logs| - 1];
      FilterKeepsKeysUnique(front, p);
      var f := Filter(front, p);
      FilterKeepsAll(front, p);
      if p(last) {
        var r := f + [last];
        forall i, j | 0 <= i < j < |r| ensures !HasKey(r[j], r[i].ambassadorId, r[i].date) {
          if j == |f| {
            assert r[i] in front;
            var k :| 0 <= k < |front| && front[k] == r[i];
            assert logs[k] == r[i];
          } else {
            assert r[i] == f[i] && r[j] == f[j];
          }
        }
      }
    }
  }

  lemma WithoutLogsKeepsKeysUnique(logs: seq<DayLog>, ambassadorId: string)
    requires UniqueKeys(logs)
    ensures UniqueKeys(WithoutLogsOf(logs, ambassadorId))
  {
    FilterKeepsKeysUnique(logs, NotOwnedBy(ambassadorId));
  }

  /// The cascade zeroes the removed ambassador's total and leaves every
  /// other total as it was.
  lemma CascadeTotal(w: Weights, logs: seq<DayLog>, adjustments: seq<Adjustment>, removed: string, who: string)
    ensures Total(w, WithoutLogsOf(logs, removed), WithoutAdjustmentsOf(adjustments, removed), who)
         == if who == removed then 0 else Total(w, logs, adjustments, who)
  {
    WithoutLogsOfLogs(logs, removed, who);
    WithoutAdjustmentsOfAdjustments(adjustments, removed, who);
  }

  /// Removing one ambassador leaves every other one known.
  lemma KnownAfterRemove(ambassadors: seq<Ambassador>, i: nat, id: string)
    requires i < |ambassadors| && id != ambassadors[i].id
    ensures Known(RemoveAt(ambassadors, i), id) <==> Known(ambassadors, id)
  {
    var r := RemoveAt(ambassadors, i);
    if Known(ambassadors, id) {
      var j :| 0 <= j < |ambassadors| && IsAmbassador(ambassadors[j], id);
      if j < i {
        assert IsAmbassador(r[j], id);
      } else {
        assert IsAmbassador(r[j - 1], id);
      }
    }
    if Known(r, id) {
      var j :| 0 <= j < |r| && IsAmbassador(r[j], id);
      if j < i {
        assert IsAmbassador(ambassadors[j], id);
      } else {
        assert IsAmbassador(ambassadors[j + 1], id);
      }
    }
  }

  /// The delete cascade keeps both ownership invariants.
  lemma CascadeKeepsOwnership(ambassadors: seq<Ambassador>, logs: seq<DayLog>, adjustments: seq<Adjustment>, i: nat)
    requires i < |ambassadors|
    requires LogsOwned(ambassadors, logs) && AdjustmentsOwned(ambassadors, adjustments)
    ensures LogsOwned(RemoveAt(ambassadors, i), WithoutLogsOf(logs, ambassadors[i].id))
    ensures AdjustmentsOwned(RemoveAt(ambassadors, i), WithoutAdjustmentsOf(adjustments, ambassadors[i].id))
  {
    var id := ambassadors[i].id;
    forall l | l in WithoutLogsOf(logs, id) ensures Known(RemoveAt(ambassadors, i), l.ambassadorId) {
      KnownAfterRemove(ambassadors, i, l.ambassadorId);
    }
    forall a | a in WithoutAdjustmentsOf(adjustments, id) ensures Known(RemoveAt(ambassadors, i), a.ambassadorId) {
      KnownAfterRemove(ambassadors, i, a.ambassadorId);
    }
  }

  // ------------------------------------------------------------ leaderboard

  /// An entry of the leaderboard: the ambassador with the derived total.
  datatype Standing = Standing(ambassador: Ambassador, total: int)

  /// `ambassadors.map(a => ({ ...a, total }))`, before sorting.
  function Standings(w: Weights, ambassadors: seq<Ambassador>, logs: seq<DayLog>, adjustments: seq<Adjustment>): (r: seq<Standing>)
    ensures |r| == |ambassadors|
    ensures forall i :: 0 <= i < |r| ==>
              r[i].ambassador == ambassadors[i] && r[i].total == Total(w, logs, adjustments, ambassadors[i].id)
  {
    seq(|ambassadors|, i requires 0 <= i < |ambassadors| =>
      Standing(ambassadors[i], Total(w, logs, adjustments, ambassadors[i].id)))
  }

  /// The leaderboard comparator `(x, y) => y.total - x.total`: x may stay
  /// ahead of y when the comparator is not positive.
  predicate HigherOrEqual(x: Standing, y: Standing)
  {
    y.total - x.total <= 0
  }

  /// The date comparator `(a, b) => a.date.localeCompare(b.date)` on logs.
  predicate LogNotLater(x: DayLog, y: DayLog)
  {
    Text.NotAfter(x.date, y.date)
  }

  /// The same comparator on adjustments.
  predicate AdjustmentNotLater(x: Adjustment, y: Adjustment)
  {
    Text.NotAfter(x.date, y.date)
  }

  /// The leaderboard comparator is consistent: a total preorder.
  lemma HigherOrEqualPreorder()
    ensures Ranking.TotalPreorder(HigherOrEqual)
  {
  }

  /// The date comparators are consistent: total preorders.
  lemma LogNotLaterPreorder()
    ensures Ranking.TotalPreorder(LogNotLater)
  {
    forall x, y ensures LogNotLater(x, y) || LogNotLater(y, x) {
      Text.NotAfterTotal(x.date, y.date);
    }
    forall x, y, z | LogNotLater(x, y) && LogNotLater(y, z) ensures LogNotLater(x, z) {
      Text.NotAfterTransitive(x.date, y.date, z.date);
    }
  }

  lemma AdjustmentNotLaterPreorder()
    ensures Ranking.TotalPreorder(AdjustmentNotLater)
  {
    forall x, y ensures AdjustmentNotLater(x, y) || AdjustmentNotLater(y, x) {
      Text.NotAfterTotal(x.date, y.date);
    }
    forall x, y, z | AdjustmentNotLater(x, y) && AdjustmentNotLater(y, z) ensures AdjustmentNotLater(x, z) {
      Text.NotAfterTransitive(x.date, y.date, z.date);
    }
  }

  /// The sorted leaderboard: totals never increase down the list and it
  /// holds exactly the entries of Standings.
  lemma RankedOrder(w: Weights, ambassadors: seq<Ambassador>, logs: seq<DayLog>, adjustments: seq<Adjustment>)
    ensures var s := Standings(w, ambassadors, logs, adjustments);
            var r := Ranking.Sort(s, HigherOrEqual);
            (forall i, j :: 0 <= i < j < |r| ==> r[i].total >= r[j].total) && multiset(r) == multiset(s)
  {
    var s := Standings(w, ambassadors, logs, adjustments);
    var r := Ranking.Sort(s, HigherOrEqual);
    HigherOrEqualPreorder();
    Ranking.SortSorted(s, HigherOrEqual);
    forall i, j | 0 <= i < j < |r| ensures r[i].total >= r[j].total {
      assert HigherOrEqual(r[i], r[j]);
    }
  }

  /// Every leaderboard entry is a stored ambassador with that ambassador's
  /// derived total.
  lemma RankedEntries(w: Weights, ambassadors: seq<Ambassador>, logs: seq<DayLog>, adjustments: seq<Adjustment>)
    ensures forall x :: x in Ranking.Sort(Standings(w, ambassadors, logs, adjustments), HigherOrEqual) ==>
              x.ambassador in ambassadors && x.total == Total(w, logs, adjustments, x.ambassador.id)
  {
    var s := Standings(w, ambassadors, logs, adjustments);
    var r := Ranking.Sort(s, HigherOrEqual);
    forall x | x in r ensures x.ambassador in ambassadors && x.total == Total(w, logs, adjustments, x.ambassador.id) {
      assert x in multiset(s);
      var i :| 0 <= i < |s| && s[i] == x;
    }
  }

  /// Entries with equal totals keep the order of the stored ambassadors.
  lemma RankedStable(w: Weights, ambassadors: seq<Ambassador>, logs: seq<DayLog>, adjustments: seq<Adjustment>, k: Standing)
    ensures var s := Standings(w, ambassadors, logs, adjustments);
            Ranking.Tied(Ranking.Sort(s, HigherOrEqual), HigherOrEqual, k) == Ranking.Tied(s, HigherOrEqual, k)
  {
    HigherOrEqualPreorder();
    Ranking.SortStable(Standings(w, ambassadors, logs, adjustments), HigherOrEqual, k);
  }

  /// The sorted logs of one ambassador: in date order, the same logs, and
  /// summing their scores gives the same day points.
  lemma LogsByDate(w: Weights, logs: seq<DayLog>, ambassadorId: string)
    ensures var r := Ranking.Sort(LogsOf(logs, ambassadorId), LogNotLater);
            Ranking.Sorted(r, LogNotLater) &&
            multiset(r) == multiset(LogsOf(logs, ambassadorId)) &&
            (forall l :: l in r ==> l.ambassadorId == ambassadorId) &&
            Sum(r, Scorer(w)) == LogPoints(w, logs, ambassadorId)
  {
    var s := LogsOf(logs, ambassadorId);
    var r := Ranking.Sort(s, LogNotLater);
    LogNotLaterPreorder();
    Ranking.SortSorted(s, LogNotLater);
    Ranking.SumSort(s, LogNotLater, Scorer(w));
    forall l | l in r ensures l.ambassadorId == ambassadorId {
      assert l in multiset(s);
      assert l in s;
      assert OwnedBy(ambassadorId)(l);
    }
  }
}
