/// The per-day state machine behind POST /api/admin/mark and
/// POST /api/admin/unmark, identical in both server versions. Each
/// transition is a function from the ambassadors and the log collection to
/// the reply and the new log collection; the handlers compute it in place.
/// Its effect is stated through DayFlag, the flag the admin listing shows
/// for a given ambassador, day and activity.
module DayLogMachine {
  import opened Seqs
  import opened Ledger

  datatype Step = Step(reply: Response<DayLog>, logs: seq<DayLog>)

  /// mark: 404 for an unknown ambassador; otherwise ensureDayLog runs, then
  /// an unknown type is 400, an already set flag is 409, and otherwise the
  /// flag is set and the log returned.
  function Marked(ambassadors: seq<Ambassador>, logs: seq<DayLog>, ambassadorId: string, date: string, kind: string): (r: Step)
    ensures |logs| <= |r.logs| <= |logs| + 1
    ensures r.reply.Ok? ==> HasKey(r.reply.value, ambassadorId, date) && r.reply.value in r.logs
  {
    if FindAmbassador(ambassadors, ambassadorId).None? then Step(NotFound, logs)
    else
      var e := EnsureDay(logs, ambassadorId, date);
      match ParseActivity(kind)
      case None => Step(BadRequest, e.logs)
      case Some(a) =>
        if Flag(e.logs[e.at], a) then Step(Conflict, e.logs)
        else
          var marked := WithFlag(e.logs[e.at], a, true);
          assert e.logs[e.at := marked][e.at] == marked;
          Step(Ok(marked), e.logs[e.at := marked])
  }

  /// unmark: 404 for an unknown ambassador or a day without a log, 400 for
  /// an unknown type, otherwise the flag is cleared whatever it was.
  function Unmarked(ambassadors: seq<Ambassador>, logs: seq<DayLog>, ambassadorId: string, date: string, kind: string): (r: Step)
    ensures |r.logs| == |logs| && !r.reply.Conflict?
    ensures r.reply.Ok? ==> HasKey(r.reply.value, ambassadorId, date) && r.reply.value in r.logs
  {
    if FindAmbassador(ambassadors, ambassadorId).None? then Step(NotFound, logs)
    else
      match FindLog(logs, ambassadorId, date)
      case None => Step(NotFound, logs)
      case Some(i) =>
        match ParseActivity(kind)
        case None => Step(BadRequest, logs)
        case Some(a) =>
          var cleared := WithFlag(logs[i], a, false);
          assert logs[i := cleared][i] == cleared;
          Step(Ok(cleared), logs[i := cleared])
  }

  // ------------------------------------------------------ observable flags

  /// ensureDayLog changes no flag the listing shows: a log it adds is empty.
  lemma EnsureDayFlags(logs: seq<DayLog>, ambassadorId: string, date: string, id: string, day: string, b: Activity)
    ensures DayFlag(EnsureDay(logs, ambassadorId, date).logs, id, day, b) == DayFlag(logs, id, day, b)
  {
    if FindLog(logs, ambassadorId, date).None? {
      FindLogAppend(logs, NewLog(ambassadorId, date), id, day);
    }
  }

  /// Rewriting one flag of the log a lookup finds changes that flag of that
  /// day and nothing else the listing shows.
  lemma FlagUpdate(logs: seq<DayLog>, i: nat, a: Activity, on: bool, id: string, day: string, b: Activity)
    requires i < |logs| && FindLog(logs, logs[i].ambassadorId, logs[i].date) == Some(i)
    ensures DayFlag(logs[i := WithFlag(logs[i], a, on)], id, day, b)
         == if HasKey(logs[i], id, day) && b == a then on else DayFlag(logs, id, day, b)
  {
    FindLogUpdate(logs, i, WithFlag(logs[i], a, on), id, day);
  }

  // ------------------------------------------------------------------ mark

  /// Which reply mark gives, in terms of the state before it: 404 exactly
  /// for an unknown ambassador, 400 exactly for an unknown type, 409 exactly
  /// when the flag is already set, success otherwise.
  lemma MarkedReply(ambassadors: seq<Ambassador>, logs: seq<DayLog>, ambassadorId: string, date: string, kind: string)
    ensures var st := Marked(ambassadors, logs, ambassadorId, date, kind);
            var a := ParseActivity(kind);
            (st.reply == NotFound <==> !Known(ambassadors, ambassadorId)) &&
            (st.reply == BadRequest <==> Known(ambassadors, ambassadorId) && a.None?) &&
            (st.reply == Conflict <==> Known(ambassadors, ambassadorId) && a.Some? && DayFlag(logs, ambassadorId, date, a.value)) &&
            (st.reply.Ok? <==> Known(ambassadors, ambassadorId) && a.Some? && !DayFlag(logs, ambassadorId, date, a.value))
  {
    if Known(ambassadors, ambassadorId) && ParseActivity(kind).Some? {
      var e := EnsureDay(logs, ambassadorId, date);
      EnsureDayFlags(logs, ambassadorId, date, ambassadorId, date, ParseActivity(kind).value);
      assert DayFlag(e.logs, ambassadorId, date, ParseActivity(kind).value) == Flag(e.logs[e.at], ParseActivity(kind).value);
    }
  }

  /// What mark does to the log collection: a refused mark (404, 409) leaves
  /// it as it was; an unknown type leaves at most the empty log that
  /// ensureDayLog appended; a success returns the stored log of that day.
  lemma MarkedLogs(ambassadors: seq<Ambassador>, logs: seq<DayLog>, ambassadorId: string, date: string, kind: string)
    ensures var st := Marked(ambassadors, logs, ambassadorId, date, kind);
            (st.reply == NotFound || st.reply == Conflict ==> st.logs == logs) &&
            (st.reply == BadRequest ==> st.logs == logs || st.logs == logs + [NewLog(ambassadorId, date)]) &&
            (st.reply.Ok? ==> FindLog(st.logs, ambassadorId, date).Some?
                              && st.reply.value == st.logs[FindLog(st.logs, ambassadorId, date).value]) &&
            |logs| <= |st.logs| <= |logs| + 1
  {
    var st := Marked(ambassadors, logs, ambassadorId, date, kind);
    if Known(ambassadors, ambassadorId) {
      var e := EnsureDay(logs, ambassadorId, date);
      if |e.logs| > |logs| {
        assert e.logs == logs + [NewLog(ambassadorId, date)];
      }
      if st.reply.Ok? {
        var marked := WithFlag(e.logs[e.at], ParseActivity(kind).value, true);
        FindLogUpdate(e.logs, e.at, marked, ambassadorId, date);
      }
    }
  }

  /// A successful mark sets exactly the targeted flag of that day; every
  /// other flag of every day, and everything after a refused mark, reads as
  /// before.
  lemma MarkedFlags(ambassadors: seq<Ambassador>, logs: seq<DayLog>, ambassadorId: string, date: string, kind: string,
                    id: string, day: string, b: Activity)
    ensures var st := Marked(ambassadors, logs, ambassadorId, date, kind);
            DayFlag(st.logs, id, day, b)
              == if st.reply.Ok? && id == ambassadorId && day == date && b == ParseActivity(kind).value then true
                 else DayFlag(logs, id, day, b)
  {
    if Known(ambassadors, ambassadorId) {
      var e := EnsureDay(logs, ambassadorId, date);
      EnsureDayFlags(logs, ambassadorId, date, id, day, b);
      var st := Marked(ambassadors, logs, ambassadorId, date, kind);
      if st.reply.Ok? {
        FlagUpdate(e.logs, e.at, ParseActivity(kind).value, true, id, day, b);
      }
    }
  }

  /// A successful mark adds the activity's weight to that ambassador's day
  /// points and changes nobody else's; every other outcome changes nothing.
  lemma MarkedPoints(w: Weights, ambassadors: seq<Ambassador>, logs: seq<DayLog>, ambassadorId: string, date: string,
                     kind: string, who: string)
    ensures var st := Marked(ambassadors, logs, ambassadorId, date, kind);
            LogPoints(w, st.logs, who)
              == LogPoints(w, logs, who)
                 + (if st.reply.Ok? && who == ambassadorId then Weight(w, ParseActivity(kind).value) else 0)
  {
    if Known(ambassadors, ambassadorId) {
      var e := EnsureDay(logs, ambassadorId, date);
      EnsureDayPoints(w, logs, ambassadorId, date, who);
      var st := Marked(ambassadors, logs, ambassadorId, date, kind);
      if st.reply.Ok? {
        var a := ParseActivity(kind).value;
        UpdatePoints(w, e.logs, e.at, WithFlag(e.logs[e.at], a, true), who);
        WithFlagScore(w, e.logs[e.at], a, true);
      }
    }
  }

  /// mark keeps one log per (ambassador, day) and adds logs only for known
  /// ambassadors.
  lemma MarkedInvariant(ambassadors: seq<Ambassador>, logs: seq<DayLog>, ambassadorId: string, date: string, kind: string)
    requires UniqueKeys(logs) && LogsOwned(ambassadors, logs)
    ensures UniqueKeys(Marked(ambassadors, logs, ambassadorId, date, kind).logs)
    ensures LogsOwned(ambassadors, Marked(ambassadors, logs, ambassadorId, date, kind).logs)
  {
    if Known(ambassadors, ambassadorId) {
      var e := EnsureDay(logs, ambassadorId, date);
      EnsureDayKeepsKeysUnique(logs, ambassadorId, date);
      assert LogsOwned(ambassadors, e.logs) by {
        forall l | l in e.logs ensures Known(ambassadors, l.ambassadorId) {
          if l !in logs {
            assert l == NewLog(ambassadorId, date);
          }
        }
      }
      var st := Marked(ambassadors, logs, ambassadorId, date, kind);
      if st.reply.Ok? {
        UpdateKeepsInvariant(ambassadors, e.logs, e.at, WithFlag(e.logs[e.at], ParseActivity(kind).value, true));
      }
    }
  }

  /// Rewriting a log's flags keeps both collection invariants.
  lemma UpdateKeepsInvariant(ambassadors: seq<Ambassador>, logs: seq<DayLog>, i: nat, x: DayLog)
    requires i < |logs| && x.ambassadorId == logs[i].ambassadorId && x.date == logs[i].date
    requires UniqueKeys(logs) && LogsOwned(ambassadors, logs)
    ensures UniqueKeys(logs[i := x]) && LogsOwned(ambassadors, logs[i := x])
  {
    var s := logs[i := x];
    forall l | l in s ensures Known(ambassadors, l.ambassadorId) {
      var j :| 0 <= j < |s| && s[j] == l;
      assert logs[j] in logs;
    }
  }

  // ---------------------------------------------------------------- unmark

  /// Which reply unmark gives: 404 exactly for an unknown ambassador or a
  /// day without a log, 400 exactly for an unknown type, success otherwise;
  /// a flag that is already clear is not refused.
  lemma UnmarkedReply(ambassadors: seq<Ambassador>, logs: seq<DayLog>, ambassadorId: string, date: string, kind: string)
    ensures var st := Unmarked(ambassadors, logs, ambassadorId, date, kind);
            var found := Known(ambassadors, ambassadorId) && FindLog(logs, ambassadorId, date).Some?;
            (st.reply == NotFound <==> !found) &&
            (st.reply == BadRequest <==> found && ParseActivity(kind).None?) &&
            (st.reply.Ok? <==> found && ParseActivity(kind).Some?) &&
            st.reply != Conflict
  {
  }

  /// A successful unmark clears exactly the targeted flag of that day;
  /// every other flag reads as before, and a refused unmark changes nothing.
  lemma UnmarkedFlags(ambassadors: seq<Ambassador>, logs: seq<DayLog>, ambassadorId: string, date: string, kind: string,
                      id: string, day: string, b: Activity)
    ensures var st := Unmarked(ambassadors, logs, ambassadorId, date, kind);
            (!st.reply.Ok? ==> st.logs == logs) &&
            |st.logs| == |logs| &&
            DayFlag(st.logs, id, day, b)
              == if st.reply.Ok? && id == ambassadorId && day == date && b == ParseActivity(kind).value then false
                 else DayFlag(logs, id, day, b)
  {
    var st := Unmarked(ambassadors, logs, ambassadorId, date, kind);
    if st.reply.Ok? {
      var i := FindLog(logs, ambassadorId, date).value;
      FlagUpdate(logs, i, ParseActivity(kind).value, false, id, day, b);
    }
  }

  /// Unmarking twice leaves the same logs as unmarking once.
  lemma UnmarkIdempotent(ambassadors: seq<Ambassador>, logs: seq<DayLog>, ambassadorId: string, date: string, kind: string)
    ensures var once := Unmarked(ambassadors, logs, ambassadorId, date, kind);
            var twice := Unmarked(ambassadors, once.logs, ambassadorId, date, kind);
            twice.logs == once.logs && twice.reply == once.reply
  {
    var once := Unmarked(ambassadors, logs, ambassadorId, date, kind);
    if once.reply.Ok? {
      var i := FindLog(logs, ambassadorId, date).value;
      var a := ParseActivity(kind).value;
      FindLogUpdate(logs, i, WithFlag(logs[i], a, false), ambassadorId, date);
      assert WithFlag(WithFlag(logs[i], a, false), a, false) == WithFlag(logs[i], a, false) by {
        match a
        case Story =>
        case Post =>
        case Product =>
      }
    }
  }

  /// A successful unmark takes the activity's weight off that ambassador's
  /// day points when the flag was set, and changes nobody else's.
  lemma UnmarkedPoints(w: Weights, ambassadors: seq<Ambassador>, logs: seq<DayLog>, ambassadorId: string, date: string,
                       kind: string, who: string)
    ensures var st := Unmarked(ambassadors, logs, ambassadorId, date, kind);
            LogPoints(w, st.logs, who)
              == LogPoints(w, logs, who)
                 - (if st.reply.Ok? && who == ambassadorId && DayFlag(logs, ambassadorId, date, ParseActivity(kind).value)
                    then Weight(w, ParseActivity(kind).value) else 0)
  {
    var st := Unmarked(ambassadors, logs, ambassadorId, date, kind);
    if st.reply.Ok? {
      var i := FindLog(logs, ambassadorId, date).value;
      var a := ParseActivity(kind).value;
      UpdatePoints(w, logs, i, WithFlag(logs[i], a, false), who);
      WithFlagScore(w, logs[i], a, false);
    }
  }

  lemma UnmarkedInvariant(ambassadors: seq<Ambassador>, logs: seq<DayLog>, ambassadorId: string, date: string, kind: string)
    requires UniqueKeys(logs) && LogsOwned(ambassadors, logs)
    ensures UniqueKeys(Unmarked(ambassadors, logs, ambassadorId, date, kind).logs)
    ensures LogsOwned(ambassadors, Unmarked(ambassadors, logs, ambassadorId, date, kind).logs)
  {
    var st := Unmarked(ambassadors, logs, ambassadorId, date, kind);
    if st.reply.Ok? {
      var i := FindLog(logs, ambassadorId, date).value;
      UpdateKeepsInvariant(ambassadors, logs, i, WithFlag(logs[i], ParseActivity(kind).value, false));
    }
  }

  // ------------------------------------------------------------ sequences

  /// Marking the same flag of the same day twice: the second is refused.
  lemma MarkTwiceConflicts(ambassadors: seq<Ambassador>, logs: seq<DayLog>, ambassadorId: string, date: string, kind: string)
    requires Marked(ambassadors, logs, ambassadorId, date, kind).reply.Ok?
    ensures Marked(ambassadors, Marked(ambassadors, logs, ambassadorId, date, kind).logs, ambassadorId, date, kind).reply == Conflict
  {
    var a := ParseActivity(kind).value;
    var st := Marked(ambassadors, logs, ambassadorId, date, kind);
    MarkedReply(ambassadors, logs, ambassadorId, date, kind);
    MarkedFlags(ambassadors, logs, ambassadorId, date, kind, ambassadorId, date, a);
    MarkedReply(ambassadors, st.logs, ambassadorId, date, kind);
  }

  /// mark, unmark, mark of the same flag of the same day: each succeeds.
  lemma MarkUnmarkMark(ambassadors: seq<Ambassador>, logs: seq<DayLog>, ambassadorId: string, date: string, kind: string)
    requires Marked(ambassadors, logs, ambassadorId, date, kind).reply.Ok?
    ensures var s1 := Marked(ambassadors, logs, ambassadorId, date, kind).logs;
            var s2 := Unmarked(ambassadors, s1, ambassadorId, date, kind);
            s2.reply.Ok? && Marked(ambassadors, s2.logs, ambassadorId, date, kind).reply.Ok?
  {
    var a := ParseActivity(kind).value;
    var s1 := Marked(ambassadors, logs, ambassadorId, date, kind);
    MarkedReply(ambassadors, logs, ambassadorId, date, kind);
    MarkedLogs(ambassadors, logs, ambassadorId, date, kind);
    var s2 := Unmarked(ambassadors, s1.logs, ambassadorId, date, kind);
    UnmarkedReply(ambassadors, s1.logs, ambassadorId, date, kind);
    UnmarkedFlags(ambassadors, s1.logs, ambassadorId, date, kind, ambassadorId, date, a);
    MarkedReply(ambassadors, s2.logs, ambassadorId, date, kind);
  }

  /// Two marks of different activities on the same day both succeed when
  /// the second flag was clear, and leave both flags set.
  lemma MarkTwoActivities(ambassadors: seq<Ambassador>, logs: seq<DayLog>, ambassadorId: string, date: string,
                          first: string, second: string)
    requires Marked(ambassadors, logs, ambassadorId, date, first).reply.Ok?
    requires ParseActivity(second).Some? && ParseActivity(second) != ParseActivity(first)
    requires !DayFlag(logs, ambassadorId, date, ParseActivity(second).value)
    ensures var s1 := Marked(ambassadors, logs, ambassadorId, date, first);
            var s2 := Marked(ambassadors, s1.logs, ambassadorId, date, second);
            s2.reply.Ok?
            && DayFlag(s2.logs, ambassadorId, date, ParseActivity(first).value)
            && DayFlag(s2.logs, ambassadorId, date, ParseActivity(second).value)
  {
    var a1, a2 := ParseActivity(first).value, ParseActivity(second).value;
    var s1 := Marked(ambassadors, logs, ambassadorId, date, first);
    MarkedReply(ambassadors, logs, ambassadorId, date, first);
    MarkedFlags(ambassadors, logs, ambassadorId, date, first, ambassadorId, date, a1);
    MarkedFlags(ambassadors, logs, ambassadorId, date, first, ambassadorId, date, a2);
    MarkedReply(ambassadors, s1.logs, ambassadorId, date, second);
    MarkedFlags(ambassadors, s1.logs, ambassadorId, date, second, ambassadorId, date, a1);
    MarkedFlags(ambassadors, s1.logs, ambassadorId, date, second, ambassadorId, date, a2);
  }
}
