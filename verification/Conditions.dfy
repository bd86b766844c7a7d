/** The condition list of a resource status and its whole history. */
module Conditions {
  import opened Resources

  datatype TriState = True | False | Unknown

  datatype Condition = Condition(
    kind: string, status: TriState, reason: string, message: string, lastTransition: int)

  const READY := "Ready"

  /** The first condition of a kind. */
  function Find(s: seq<Condition>, kind: string): Option<Condition> {
    if s == [] then None else if s[0].kind == kind then Some(s[0]) else Find(s[1..], kind)
  }

  ghost predicate IsFirst(s: seq<Condition>, kind: string, i: int) {
    0 <= i < |s| && s[i].kind == kind && forall j :: 0 <= j < i ==> s[j].kind != kind
  }

  function Upsert(s: seq<Condition>, c: Condition, now: int): seq<Condition> {
    if s == [] then [c.(lastTransition := now)]
    else if s[0].kind == c.kind then
      [c.(lastTransition := if s[0].status == c.status then s[0].lastTransition else now)] + s[1..]
    else [s[0]] + Upsert(s[1..], c, now)
  }

  class Status {
    var conditions: seq<Condition>

    constructor ()
      ensures conditions == []
    {
      conditions := [];
    }

    method SetCondition(c: Condition, now: int)
      modifies this
      ensures conditions == Upsert(old(conditions), c, now)
    {
      var i := 0;
      while i < |conditions|
        invariant 0 <= i <= |conditions| && conditions == old(conditions)
        invariant Upsert(conditions, c, now) == conditions[..i] + Upsert(conditions[i..], c, now)
      {
        var existing := conditions[i];
        if existing.kind == c.kind {
          var updated := c.(lastTransition := if existing.status == c.status then existing.lastTransition else now);
          assert conditions[i..][1..] == conditions[i + 1..];
          conditions := conditions[i := updated];
          return;
        }
        assert conditions[i..][1..] == conditions[i + 1..];
        i := i + 1;
      }
      conditions := conditions + [c.(lastTransition := now)];
    }

    method FindCondition(kind: string) returns (r: Option<Condition>)
      ensures r == Find(conditions, kind)
      ensures r.None? <==> forall i :: 0 <= i < |conditions| ==> conditions[i].kind != kind
      ensures r.Some? ==> exists i :: IsFirst(conditions, kind, i) && conditions[i] == r.value
    {
      var i := 0;
      while i < |conditions|
        invariant 0 <= i <= |conditions| && Find(conditions, kind) == Find(conditions[i..], kind)
        invariant forall j :: 0 <= j < i ==> conditions[j].kind != kind
      {
        if conditions[i].kind == kind {
          assert IsFirst(conditions, kind, i);
          return Some(conditions[i]);
        }
        assert conditions[i..][1..] == conditions[i + 1..];
        i := i + 1;
      }
      r := None;
    }

    method IsReady() returns (yes: bool)
      ensures yes <==> exists i :: IsFirst(conditions, "Ready", i) && conditions[i].status == True
    {
      var c := FindCondition(READY);
      yes := c.Some? && c.value.status == True;
    }
  }

  // ---------------------------------------------------------------- histories

  datatype Call = Call(condition: Condition, now: int)

  /** The list after a sequence of SetCondition calls on an empty status. */
  function After(calls: seq<Call>): seq<Condition> {
    if calls == [] then []
    else Upsert(After(calls[..|calls| - 1]), calls[|calls| - 1].condition, calls[|calls| - 1].now)
  }

  function OfKind(calls: seq<Call>, kind: string): seq<Call> {
    if calls == [] then []
    else
      OfKind(calls[..|calls| - 1], kind)
      + (if calls[|calls| - 1].condition.kind == kind then [calls[|calls| - 1]] else [])
  }

  ghost predicate OnePerKind(s: seq<Condition>) {
    forall i, j :: 0 <= i < j < |s| ==> s[i].kind != s[j].kind
  }

  lemma {:induction false} FindMisses(s: seq<Condition>, kind: string, i: nat)
    requires Find(s, kind).None? && i < |s|
    ensures s[i].kind != kind
  {
    if i > 0 {
      FindMisses(s[1..], kind, i - 1);
    }
  }

  lemma {:induction false} UpsertFind(s: seq<Condition>, c: Condition, now: int, kind: string)
    ensures Find(Upsert(s, c, now), kind) ==
            if kind != c.kind then Find(s, kind)
            else
              var before := Find(s, kind);
              Some(c.(lastTransition := if before.Some? && before.value.status == c.status then before.value.lastTransition else now))
  {
    if s != [] && s[0].kind != c.kind {
      UpsertFind(s[1..], c, now, kind);
    }
  }

  /** No kind occurs again further on. */
  ghost predicate NoneAgain(s: seq<Condition>) {
    s == [] || (Find(s[1..], s[0].kind).None? && NoneAgain(s[1..]))
  }

  lemma {:induction false} UpsertNoneAgain(s: seq<Condition>, c: Condition, now: int)
    requires NoneAgain(s)
    ensures NoneAgain(Upsert(s, c, now))
  {
    if s != [] && s[0].kind != c.kind {
      UpsertNoneAgain(s[1..], c, now);
      UpsertFind(s[1..], c, now, s[0].kind);
    }
  }

  lemma {:induction false} NoneAgainIsOnePerKind(s: seq<Condition>)
    requires NoneAgain(s)
    ensures OnePerKind(s)
  {
    if s != [] {
      NoneAgainIsOnePerKind(s[1..]);
      forall j | 0 < j < |s| ensures s[j].kind != s[0].kind {
        FindMisses(s[1..], s[0].kind, j - 1);
      }
    }
  }

  lemma {:induction false} AfterOnePerKind(calls: seq<Call>)
    ensures NoneAgain(After(calls)) && OnePerKind(After(calls))
  {
    if calls != [] {
      AfterOnePerKind(calls[..|calls| - 1]);
      UpsertNoneAgain(After(calls[..|calls| - 1]), calls[|calls| - 1].condition, calls[|calls| - 1].now);
    }
    NoneAgainIsOnePerKind(After(calls));
  }

  /** The unbroken run of equal statuses that ends the sequence starts at r. */
  ghost predicate FinalRunStart(calls: seq<Call>, r: int) {
    && 0 <= r < |calls|
    && (forall i :: r <= i < |calls| ==> calls[i].condition.status == calls[|calls| - 1].condition.status)
    && (r > 0 ==> calls[r - 1].condition.status != calls[|calls| - 1].condition.status)
  }

  /** The stored condition is the last call's payload, dated by the first call of the final run. */
  ghost predicate DatedByFinalRun(calls: seq<Call>, c: Condition, r: int) {
    FinalRunStart(calls, r) && c == calls[|calls| - 1].condition.(lastTransition := calls[r].now)
  }

  /** What is stored for a kind, given all calls made for it. */
  ghost predicate TellsHistory(calls: seq<Call>, found: Option<Condition>) {
    match found
    case None => calls == []
    case Some(c) => calls != [] && exists r :: DatedByFinalRun(calls, c, r)
  }

  /** One more call of the same kind either extends the final run or starts a new one. */
  lemma RunGoesOn(before: seq<Call>, found: Option<Condition>, last: Call, c: Condition)
    requires TellsHistory(before, found)
    requires c == last.condition.(lastTransition :=
               if found.Some? && found.value.status == last.condition.status then found.value.lastTransition else last.now)
    ensures TellsHistory(before + [last], Some(c))
  {
    if found.Some? && found.value.status == last.condition.status {
      var r :| DatedByFinalRun(before, found.value, r);
      assert DatedByFinalRun(before + [last], c, r);
    } else {
      assert DatedByFinalRun(before + [last], c, |before|);
    }
  }

  /** After any sequence of calls: one condition per kind, and each tells the history of its kind. */
  lemma {:induction false} ConditionHistory(calls: seq<Call>, kind: string)
    ensures OnePerKind(After(calls))
    ensures TellsHistory(OfKind(calls, kind), Find(After(calls), kind))
  {
    AfterOnePerKind(calls);
    if calls != [] {
      var front, last := calls[..|calls| - 1], calls[|calls| - 1];
      ConditionHistory(front, kind);
      UpsertFind(After(front), last.condition, last.now, kind);
      if last.condition.kind == kind {
        assert OfKind(calls, kind) == OfKind(front, kind) + [last];
        RunGoesOn(OfKind(front, kind), Find(After(front), kind), last, Find(After(calls), kind).value);
      } else {
        assert OfKind(calls, kind) == OfKind(front, kind);
      }
    }
  }
}
