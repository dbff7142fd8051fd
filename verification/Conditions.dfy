/**
 * The status conditions of a custom resource and the three updates the
 * reconciler makes to them. `SetCondition` keeps a list; the laws show that,
 * through any sequence of updates, each condition type behaves as a cell of
 * its own (`CellAfter`).
 */
module Conditions {
  import opened Common

  datatype AnsibleResult = AnsibleResult(ok: int, changed: int, skipped: int, failures: int, completion: int)

  datatype Condition = Condition(kind: string, status: string, time: int, result: Option<AnsibleResult>,
                                 reason: string, message: string)

  const RUNNING := "Running"
  const FAILURE := "Failure"
  const SUCCESSFUL := "Successful"

  const TRUE := "True"
  const FALSE := "False"

  predicate Managed(kind: string) {
    kind == RUNNING || kind == FAILURE || kind == SUCCESSFUL
  }

  /** The first condition of a type. */
  function Get(cs: seq<Condition>, kind: string): (r: Option<Condition>)
    ensures r.Some? ==> r.value.kind == kind
  {
    if cs == [] then None else if cs[0].kind == kind then Some(cs[0]) else Get(cs[1..], kind)
  }

  /** The conditions of every other type, in order. */
  function Without(cs: seq<Condition>, kind: string): seq<Condition> {
    if cs == [] then [] else (if cs[0].kind == kind then [] else [cs[0]]) + Without(cs[1..], kind)
  }

  function Set(cs: seq<Condition>, c: Condition): seq<Condition> {
    var current := Get(cs, c.kind);
    if current.Some? && c.kind != FAILURE && current.value.status == c.status
        && current.value.reason == c.reason then cs
    else
      var time := if current.Some? && current.value.status == c.status then current.value.time else c.time;
      Without(cs, c.kind) + [c.(time := time)]
  }

  /** Rewrites the status of a condition that is already there, as false. */
  function Unset(cs: seq<Condition>, kind: string): seq<Condition> {
    match Get(cs, kind) case None => cs case Some(c) => Set(cs, c.(status := FALSE))
  }

  // ----- the three updates

  datatype Mark = MarkRunning | MarkError(message: string) | MarkDone(result: AnsibleResult, failures: seq<string>)

  function Apply(cs: seq<Condition>, mark: Mark, now: int): seq<Condition> {
    match mark
    case MarkRunning =>
      Set(Unset(cs, SUCCESSFUL), Condition(RUNNING, TRUE, now, None, "Running", "Running reconciliation"))
    case MarkError(message) =>
      Set(Unset(Unset(cs, RUNNING), SUCCESSFUL), Condition(FAILURE, TRUE, now, None, "Failed", message))
    case MarkDone(result, failures) =>
      if failures == [] then
        var running := Condition(RUNNING, TRUE, now, Some(result), "Successful", "Awaiting next reconciliation");
        var successful := Condition(SUCCESSFUL, TRUE, now, None, "Successful", "Last reconciliation succeeded");
        Set(Set(Set(cs, running), successful), Condition(FAILURE, FALSE, now, None, "", ""))
      else
        var failure := Condition(FAILURE, TRUE, now, Some(result), "Failed", Join(failures, "\n"));
        Set(Set(Unset(cs, RUNNING), failure), Condition(SUCCESSFUL, FALSE, now, None, "", ""))
  }

  datatype Timed = Timed(mark: Mark, now: int)

  function Run(cs: seq<Condition>, marks: seq<Timed>): seq<Condition>
    decreases |marks|
  {
    if marks == [] then cs else Run(Apply(cs, marks[0].mark, marks[0].now), marks[1..])
  }

  // ----- the imperative form

  class Status {
    var conditions: seq<Condition>

    constructor (cs: seq<Condition>)
      ensures conditions == cs
    {
      conditions := cs;
    }

    method GetCondition(kind: string) returns (r: Option<Condition>)
      ensures r == Get(conditions, kind)
    {
      assert conditions[0..] == conditions;
      for i := 0 to |conditions|
        invariant Get(conditions, kind) == Get(conditions[i..], kind)
      {
        var c := conditions[i];
        if c.kind == kind { return Some(c); }
        assert conditions[i..][1..] == conditions[i + 1..];
      }
      return None;
    }

    method SetCondition(condition: Condition)
      modifies this
      ensures conditions == Set(old(conditions), condition)
    {
      var current := GetCondition(condition.kind);
      if current.Some? && condition.kind != FAILURE && current.value.status == condition.status
          && current.value.reason == condition.reason {
        return;
      }
      var updated := condition;
      if current.Some? && current.value.status == condition.status {
        updated := updated.(time := current.value.time);
      }
      var kept := FilterOutCondition(conditions, condition.kind);
      conditions := kept + [updated];
    }

    method UnsetCondition(kind: string)
      modifies this
      ensures conditions == Unset(old(conditions), kind)
    {
      var c := GetCondition(kind);
      if c.Some? { SetCondition(c.value.(status := FALSE)); }
    }

    method MarkAsRunning(now: int)
      modifies this
      ensures conditions == Apply(old(conditions), MarkRunning, now)
    {
      UnsetCondition(SUCCESSFUL);
      SetCondition(Condition(RUNNING, TRUE, now, None, "Running", "Running reconciliation"));
    }

    method MarkAsError(message: string, now: int)
      modifies this
      ensures conditions == Apply(old(conditions), MarkError(message), now)
    {
      UnsetCondition(RUNNING);
      UnsetCondition(SUCCESSFUL);
      SetCondition(Condition(FAILURE, TRUE, now, None, "Failed", message));
    }

    method MarkAsDone(result: AnsibleResult, failures: seq<string>, now: int)
      modifies this
      ensures conditions == Apply(old(conditions), MarkDone(result, failures), now)
    {
      if |failures| == 0 {
        SetCondition(Condition(RUNNING, TRUE, now, Some(result), "Successful", "Awaiting next reconciliation"));
        SetCondition(Condition(SUCCESSFUL, TRUE, now, None, "Successful", "Last reconciliation succeeded"));
        SetCondition(Condition(FAILURE, FALSE, now, None, "", ""));
      } else {
        UnsetCondition(RUNNING);
        SetCondition(Condition(FAILURE, TRUE, now, Some(result), "Failed", Join(failures, "\n")));
        SetCondition(Condition(SUCCESSFUL, FALSE, now, None, "", ""));
      }
    }
  }

  /** One update of a list of conditions, as an object's status goes through it. */
  method Updated(cs: seq<Condition>, mark: Mark, now: int) returns (r: seq<Condition>)
    ensures r == Apply(cs, mark, now)
  {
    var status := new Status(cs);
    match mark {
      case MarkRunning => status.MarkAsRunning(now);
      case MarkError(message) => status.MarkAsError(message, now);
      case MarkDone(result, failures) => status.MarkAsDone(result, failures, now);
    }
    r := status.conditions;
  }

  method FilterOutCondition(conditions: seq<Condition>, kind: string) returns (kept: seq<Condition>)
    ensures kept == Without(conditions, kind)
  {
    kept := [];
    for i := 0 to |conditions|
      invariant kept == Without(conditions[..i], kind)
    {
      WithoutAppend(conditions[..i], conditions[i], kind);
      assert conditions[..i + 1] == conditions[..i] + [conditions[i]];
      if conditions[i].kind == kind { continue; }
      kept := kept + [conditions[i]];
    }
    assert conditions[..|conditions|] == conditions;
  }

  // ----- one cell per type

  /** What is observed of a condition type: status, reason, transition time. */
  datatype Cell = Absent | Cell(status: string, reason: string, time: int)

  function View(cs: seq<Condition>, kind: string): Cell {
    match Get(cs, kind) case None => Absent case Some(c) => Cell(c.status, c.reason, c.time)
  }

  /** Writing a new condition: the transition time is kept when the status is. */
  function Written(cell: Cell, status: string, reason: string, now: int): Cell {
    Cell(status, reason, if cell.Cell? && cell.status == status then cell.time else now)
  }

  function UnsetCell(cell: Cell): Cell {
    if cell.Absent? then cell else cell.(status := FALSE)
  }

  /** The effect of an update on one type, from that type's cell alone. */
  function CellAfter(cell: Cell, kind: string, mark: Mark, now: int): Cell {
    if !Managed(kind) then cell else
    match mark
    case MarkRunning =>
      if kind == RUNNING then Written(cell, TRUE, "Running", now)
      else if kind == SUCCESSFUL then UnsetCell(cell) else cell
    case MarkError(_) =>
      if kind == FAILURE then Written(cell, TRUE, "Failed", now) else UnsetCell(cell)
    case MarkDone(_, failures) =>
      if failures == [] then
        if kind == FAILURE then Written(cell, FALSE, "", now) else Written(cell, TRUE, "Successful", now)
      else
        if kind == FAILURE then Written(cell, TRUE, "Failed", now)
        else if kind == SUCCESSFUL then Written(cell, FALSE, "", now) else UnsetCell(cell)
  }

  function CellRun(cell: Cell, kind: string, marks: seq<Timed>): Cell
    decreases |marks|
  {
    if marks == [] then cell else CellRun(CellAfter(cell, kind, marks[0].mark, marks[0].now), kind, marks[1..])
  }

  lemma GetOfCons(c: Condition, cs: seq<Condition>, kind: string)
    ensures Get([c] + cs, kind) == if c.kind == kind then Some(c) else Get(cs, kind)
  {
    assert ([c] + cs)[1..] == cs;
  }

  lemma {:induction false} GetWithout(cs: seq<Condition>, c: Condition, kind: string)
    ensures Get(Without(cs, c.kind) + [c], kind) == if kind == c.kind then Some(c) else Get(cs, kind)
  {
    if cs == [] {
      assert Without(cs, c.kind) + [c] == [c];
    } else {
      GetWithout(cs[1..], c, kind);
      if cs[0].kind != c.kind {
        Reassociate([cs[0]], Without(cs[1..], c.kind), [c]);
        GetOfCons(cs[0], Without(cs[1..], c.kind) + [c], kind);
      } else {
        assert Without(cs, c.kind) == Without(cs[1..], c.kind);
      }
    }
  }

  /** The early return and the time rule together are one rule per type: setting
      a condition writes its own cell and no other. */
  lemma SetWritesOneCell(cs: seq<Condition>, c: Condition, kind: string)
    ensures View(Set(cs, c), kind) == if kind == c.kind then Written(View(cs, kind), c.status, c.reason, c.time)
        else View(cs, kind)
  {
    var current := Get(cs, c.kind);
    var time := if current.Some? && current.value.status == c.status then current.value.time else c.time;
    GetWithout(cs, c.(time := time), kind);
  }

  predicate SameStatus(before: Option<Condition>, c: Condition) {
    before.Some? && before.value.status == c.status
  }

  predicate SameReason(before: Option<Condition>, c: Condition) {
    before.Some? && before.value.reason == c.reason
  }

  /** What is found after setting a condition, in full. A failure is always the new
      one; another condition is left alone, with its message and result, when
      status and reason agree. The time of a kept status is kept. */
  lemma SetIsFound(cs: seq<Condition>, c: Condition)
    ensures var before, found := Get(cs, c.kind), Get(Set(cs, c), c.kind);
            && found.Some?
            && (c.kind != FAILURE && SameStatus(before, c) && SameReason(before, c) ==> found == before)
            && (c.kind == FAILURE || !SameStatus(before, c) || !SameReason(before, c) ==>
                  found.value == c.(time := if SameStatus(before, c) then before.value.time else c.time))
  {
    var current := Get(cs, c.kind);
    var time := if current.Some? && current.value.status == c.status then current.value.time else c.time;
    GetWithout(cs, c.(time := time), c.kind);
  }

  lemma SetLeavesOthers(cs: seq<Condition>, c: Condition, kind: string)
    requires kind != c.kind
    ensures Get(Set(cs, c), kind) == Get(cs, kind)
  {
    var current := Get(cs, c.kind);
    var time := if current.Some? && current.value.status == c.status then current.value.time else c.time;
    GetWithout(cs, c.(time := time), kind);
  }

  lemma UnsetWritesOneCell(cs: seq<Condition>, other: string, kind: string)
    ensures View(Unset(cs, other), kind) == if kind == other then UnsetCell(View(cs, kind)) else View(cs, kind)
  {
    var c := Get(cs, other);
    if c.Some? { SetWritesOneCell(cs, c.value.(status := FALSE), kind); }
  }

  lemma ApplyActsOnCells(cs: seq<Condition>, mark: Mark, now: int, kind: string)
    ensures View(Apply(cs, mark, now), kind) == CellAfter(View(cs, kind), kind, mark, now)
  {
    match mark
    case MarkRunning =>
      UnsetWritesOneCell(cs, SUCCESSFUL, kind);
      SetWritesOneCell(Unset(cs, SUCCESSFUL),
          Condition(RUNNING, TRUE, now, None, "Running", "Running reconciliation"), kind);
    case MarkError(message) =>
      UnsetWritesOneCell(cs, RUNNING, kind);
      UnsetWritesOneCell(Unset(cs, RUNNING), SUCCESSFUL, kind);
      SetWritesOneCell(Unset(Unset(cs, RUNNING), SUCCESSFUL),
          Condition(FAILURE, TRUE, now, None, "Failed", message), kind);
    case MarkDone(result, failures) =>
      if failures == [] {
        var running := Condition(RUNNING, TRUE, now, Some(result), "Successful", "Awaiting next reconciliation");
        var successful := Condition(SUCCESSFUL, TRUE, now, None, "Successful", "Last reconciliation succeeded");
        SetWritesOneCell(cs, running, kind);
        SetWritesOneCell(Set(cs, running), successful, kind);
        SetWritesOneCell(Set(Set(cs, running), successful), Condition(FAILURE, FALSE, now, None, "", ""), kind);
      } else {
        var failure := Condition(FAILURE, TRUE, now, Some(result), "Failed", Join(failures, "\n"));
        UnsetWritesOneCell(cs, RUNNING, kind);
        SetWritesOneCell(Unset(cs, RUNNING), failure, kind);
        SetWritesOneCell(Set(Unset(cs, RUNNING), failure), Condition(SUCCESSFUL, FALSE, now, None, "", ""), kind);
      }
  }

  /** Over any sequence of updates the list behaves as independent cells. */
  lemma {:induction false} RunActsOnCells(cs: seq<Condition>, marks: seq<Timed>, kind: string)
    ensures View(Run(cs, marks), kind) == CellRun(View(cs, kind), kind, marks)
    decreases |marks|
  {
    if marks != [] {
      ApplyActsOnCells(cs, marks[0].mark, marks[0].now, kind);
      RunActsOnCells(Apply(cs, marks[0].mark, marks[0].now), marks[1..], kind);
    }
  }

  // ----- invariants of every run

  predicate OnePerType(cs: seq<Condition>) {
    forall i, j :: 0 <= i < j < |cs| ==> cs[i].kind != cs[j].kind
  }

  /** The conditions of foreign types, in order. */
  function Foreign(cs: seq<Condition>): seq<Condition> {
    Without(Without(Without(cs, RUNNING), FAILURE), SUCCESSFUL)
  }

  predicate Consistent(cs: seq<Condition>) {
    !(View(cs, FAILURE).Cell? && View(cs, FAILURE).status == TRUE && View(cs, SUCCESSFUL).Cell?
        && View(cs, SUCCESSFUL).status == TRUE)
  }

  lemma {:induction false} InWithout(cs: seq<Condition>, kind: string, c: Condition)
    ensures c in Without(cs, kind) <==> c in cs && c.kind != kind
  {
    if cs != [] {
      InWithout(cs[1..], kind, c);
      assert c in cs <==> c == cs[0] || c in cs[1..];
    }
  }

  lemma {:induction false} WithoutKeepsOnePerType(cs: seq<Condition>, kind: string)
    requires OnePerType(cs)
    ensures OnePerType(Without(cs, kind))
  {
    if cs != [] {
      WithoutKeepsOnePerType(cs[1..], kind);
      var rest := Without(cs[1..], kind);
      forall i | 0 <= i < |rest| ensures rest[i].kind != cs[0].kind {
        InWithout(cs[1..], kind, rest[i]);
      }
    }
  }

  lemma SetKeepsOnePerType(cs: seq<Condition>, c: Condition)
    requires OnePerType(cs)
    ensures OnePerType(Set(cs, c))
  {
    WithoutKeepsOnePerType(cs, c.kind);
    var rest := Without(cs, c.kind);
    forall i | 0 <= i < |rest| ensures rest[i].kind != c.kind { InWithout(cs, c.kind, rest[i]); }
  }

  lemma UnsetKeepsOnePerType(cs: seq<Condition>, kind: string)
    requires OnePerType(cs)
    ensures OnePerType(Unset(cs, kind))
  {
    var c := Get(cs, kind);
    if c.Some? { SetKeepsOnePerType(cs, c.value.(status := FALSE)); }
  }

  lemma {:induction false} WithoutAppend(cs: seq<Condition>, c: Condition, kind: string)
    ensures Without(cs + [c], kind) == if c.kind == kind then Without(cs, kind) else Without(cs, kind) + [c]
  {
    if cs == [] {
      assert cs + [c] == [c];
    } else {
      assert (cs + [c])[1..] == cs[1..] + [c];
      WithoutAppend(cs[1..], c, kind);
    }
  }

  lemma {:induction false} WithoutCommutes(cs: seq<Condition>, a: string, b: string)
    ensures Without(Without(cs, a), b) == Without(Without(cs, b), a)
    ensures Without(Without(cs, a), a) == Without(cs, a)
  {
    if cs != [] {
      WithoutCommutes(cs[1..], a, b);
      var x, y := Without(cs[1..], a), Without(cs[1..], b);
      assert ([cs[0]] + x)[1..] == x && ([cs[0]] + y)[1..] == y;
      assert [] + x == x && [] + y == y;
    }
  }

  lemma ForeignAppend(cs: seq<Condition>, d: Condition)
    requires Managed(d.kind)
    ensures Foreign(cs + [d]) == Foreign(cs)
  {
    var a := Without(cs, RUNNING);
    WithoutAppend(cs, d, RUNNING);
    if d.kind != RUNNING {
      WithoutAppend(a, d, FAILURE);
      if d.kind != FAILURE { WithoutAppend(Without(a, FAILURE), d, SUCCESSFUL); }
    }
  }

  lemma {:induction false} ForeignWithout(cs: seq<Condition>, kind: string)
    requires Managed(kind)
    ensures Foreign(Without(cs, kind)) == Foreign(cs)
  {
    var a := Without(cs, RUNNING);
    WithoutCommutes(cs, kind, RUNNING);
    if kind != RUNNING {
      WithoutCommutes(a, kind, FAILURE);
      if kind != FAILURE { WithoutCommutes(Without(a, FAILURE), kind, SUCCESSFUL); }
    }
  }

  lemma SetKeepsForeign(cs: seq<Condition>, c: Condition)
    requires Managed(c.kind)
    ensures Foreign(Set(cs, c)) == Foreign(cs)
  {
    var current := Get(cs, c.kind);
    var time := if current.Some? && current.value.status == c.status then current.value.time else c.time;
    ForeignWithout(cs, c.kind);
    ForeignAppend(Without(cs, c.kind), c.(time := time));
  }

  lemma UnsetKeepsForeign(cs: seq<Condition>, kind: string)
    requires Managed(kind)
    ensures Foreign(Unset(cs, kind)) == Foreign(cs)
  {
    var c := Get(cs, kind);
    if c.Some? { SetKeepsForeign(cs, c.value.(status := FALSE)); }
  }

  lemma ApplyKeeps(cs: seq<Condition>, mark: Mark, now: int)
    requires OnePerType(cs)
    ensures OnePerType(Apply(cs, mark, now)) && Foreign(Apply(cs, mark, now)) == Foreign(cs)
  {
    match mark
    case MarkRunning =>
      var c := Condition(RUNNING, TRUE, now, None, "Running", "Running reconciliation");
      UnsetKeepsOnePerType(cs, SUCCESSFUL); UnsetKeepsForeign(cs, SUCCESSFUL);
      SetKeepsOnePerType(Unset(cs, SUCCESSFUL), c); SetKeepsForeign(Unset(cs, SUCCESSFUL), c);
    case MarkError(message) =>
      var c := Condition(FAILURE, TRUE, now, None, "Failed", message);
      var a := Unset(cs, RUNNING); var b := Unset(a, SUCCESSFUL);
      UnsetKeepsOnePerType(cs, RUNNING); UnsetKeepsForeign(cs, RUNNING);
      UnsetKeepsOnePerType(a, SUCCESSFUL); UnsetKeepsForeign(a, SUCCESSFUL);
      SetKeepsOnePerType(b, c); SetKeepsForeign(b, c);
    case MarkDone(result, failures) =>
      if failures == [] {
        var x := Condition(RUNNING, TRUE, now, Some(result), "Successful", "Awaiting next reconciliation");
        var y := Condition(SUCCESSFUL, TRUE, now, None, "Successful", "Last reconciliation succeeded");
        var z := Condition(FAILURE, FALSE, now, None, "", "");
        var a := Set(cs, x); var b := Set(a, y);
        SetKeepsOnePerType(cs, x); SetKeepsForeign(cs, x);
        SetKeepsOnePerType(a, y); SetKeepsForeign(a, y);
        SetKeepsOnePerType(b, z); SetKeepsForeign(b, z);
      } else {
        var y := Condition(FAILURE, TRUE, now, Some(result), "Failed", Join(failures, "\n"));
        var z := Condition(SUCCESSFUL, FALSE, now, None, "", "");
        var a := Unset(cs, RUNNING); var b := Set(a, y);
        UnsetKeepsOnePerType(cs, RUNNING); UnsetKeepsForeign(cs, RUNNING);
        SetKeepsOnePerType(a, y); SetKeepsForeign(a, y);
        SetKeepsOnePerType(b, z); SetKeepsForeign(b, z);
      }
  }

  lemma ApplyConsistent(cs: seq<Condition>, mark: Mark, now: int)
    requires Consistent(cs)
    ensures Consistent(Apply(cs, mark, now))
  {
    ApplyActsOnCells(cs, mark, now, FAILURE);
    ApplyActsOnCells(cs, mark, now, SUCCESSFUL);
  }

  /** Every run keeps one condition per type, never shows Failure and Successful
      both True, and keeps the conditions of other types unchanged and in order. */
  lemma {:induction false} RunKeeps(cs: seq<Condition>, marks: seq<Timed>)
    requires OnePerType(cs) && Consistent(cs)
    ensures OnePerType(Run(cs, marks)) && Consistent(Run(cs, marks)) && Foreign(Run(cs, marks)) == Foreign(cs)
    decreases |marks|
  {
    if marks != [] {
      var mark, now := marks[0].mark, marks[0].now;
      ApplyKeeps(cs, mark, now);
      ApplyConsistent(cs, mark, now);
      RunKeeps(Apply(cs, mark, now), marks[1..]);
    }
  }

  /** The updates that write a type anew instead of rewriting what is there. */
  predicate WritesAnew(mark: Mark, kind: string) {
    match mark
    case MarkRunning => kind == RUNNING
    case MarkError(_) => kind == FAILURE
    case MarkDone(_, failures) => Managed(kind) && (failures == [] || kind != RUNNING)
  }

  /** The transition time of a type in any step of any run: it stays when the
      status stays, and when the status changes it becomes the current time
      exactly in the steps that write the type anew. The other steps rewrite the
      status of the old condition and leave its old time. */
  lemma TransitionTime(cs: seq<Condition>, mark: Mark, now: int, kind: string)
    requires View(cs, kind).Cell?
    ensures var a, b := View(cs, kind), View(Apply(cs, mark, now), kind);
            && b.Cell?
            && b.time == if a.status != b.status && WritesAnew(mark, kind) then now else a.time
  {
    ApplyActsOnCells(cs, mark, now, kind);
  }

  /** So a status can change without its time: a success that is followed by the
      next reconcile is no longer successful since the time it became so. */
  lemma StatusChangesWithoutTime(result: AnsibleResult)
    ensures var done := Apply([], MarkDone(result, []), 1);
            var again := Apply(done, MarkRunning, 2);
            View(done, SUCCESSFUL) == Cell(TRUE, "Successful", 1)
                && View(again, SUCCESSFUL) == Cell(FALSE, "Successful", 1)
  {
    ApplyActsOnCells([], MarkDone(result, []), 1, SUCCESSFUL);
    ApplyActsOnCells(Apply([], MarkDone(result, []), 1), MarkRunning, 2, SUCCESSFUL);
  }

  /** What the conditions say after each update, whatever happened before. */
  lemma Outcome(cs: seq<Condition>, mark: Mark, now: int)
    ensures var after := Apply(cs, mark, now);
            var running, failure, successful := View(after, RUNNING), View(after, FAILURE), View(after, SUCCESSFUL);
            match mark
            case MarkRunning => running.Cell? && running.status == TRUE
                && (successful.Cell? ==> successful.status == FALSE)
            case MarkError(_) => failure.Cell? && failure.status == TRUE && (running.Cell? ==> running.status == FALSE)
                                 && (successful.Cell? ==> successful.status == FALSE)
            case MarkDone(_, failures) =>
              && failure.Cell? && successful.Cell?
              && (failures == [] ==>
                    running.Cell? && running.status == TRUE && successful.status == TRUE && failure.status == FALSE)
              && (failures != [] ==>
                    failure.status == TRUE && successful.status == FALSE && (running.Cell? ==> running.status == FALSE))
  {
    ApplyActsOnCells(cs, mark, now, RUNNING);
    ApplyActsOnCells(cs, mark, now, FAILURE);
    ApplyActsOnCells(cs, mark, now, SUCCESSFUL);
  }

  // ----- messages and results

  /** A failure carries the message, reason and result it was marked with last. */
  predicate FailureIs(cs: seq<Condition>, message: string, result: Option<AnsibleResult>) {
    var found := Get(cs, FAILURE);
    found.Some? && found.value.status == TRUE && found.value.reason == "Failed"
    && found.value.message == message && found.value.result == result
  }

  lemma ErrorIsReported(cs: seq<Condition>, message: string, now: int)
    ensures FailureIs(Apply(cs, MarkError(message), now), message, None)
  {
    SetIsFound(Unset(Unset(cs, RUNNING), SUCCESSFUL), Condition(FAILURE, TRUE, now, None, "Failed", message));
  }

  lemma FailuresAreReported(cs: seq<Condition>, result: AnsibleResult, failures: seq<string>, now: int)
    requires failures != []
    ensures FailureIs(Apply(cs, MarkDone(result, failures), now), Join(failures, "\n"), Some(result))
  {
    var failure := Condition(FAILURE, TRUE, now, Some(result), "Failed", Join(failures, "\n"));
    var failed := Set(Unset(cs, RUNNING), failure);
    SetIsFound(Unset(cs, RUNNING), failure);
    SetLeavesOthers(failed, Condition(SUCCESSFUL, FALSE, now, None, "", ""), FAILURE);
  }

  /** The running condition after a success, unless it said so already. */
  predicate SaysSuccessful(running: Option<Condition>) {
    running.Some? && running.value.status == TRUE && running.value.reason == "Successful"
  }

  lemma RunningAfterSuccess(cs: seq<Condition>, result: AnsibleResult, now: int)
    ensures var before, after := Get(cs, RUNNING), Get(Apply(cs, MarkDone(result, []), now), RUNNING);
            && SaysSuccessful(after)
            && (SaysSuccessful(before) ==> after == before)
            && (!SaysSuccessful(before) ==> after.value.result == Some(result)
                                            && after.value.message == "Awaiting next reconciliation")
  {
    var running := Condition(RUNNING, TRUE, now, Some(result), "Successful", "Awaiting next reconciliation");
    var successful := Condition(SUCCESSFUL, TRUE, now, None, "Successful", "Last reconciliation succeeded");
    SetIsFound(cs, running);
    SetLeavesOthers(Set(cs, running), successful, RUNNING);
    SetLeavesOthers(Set(Set(cs, running), successful), Condition(FAILURE, FALSE, now, None, "", ""), RUNNING);
  }

  /** A success is reported with its result exactly when the running condition did
      not say "Successful" already, or says it with the same result. */
  lemma ResultReportedExactly(cs: seq<Condition>, result: AnsibleResult, now: int)
    ensures var before, after := Get(cs, RUNNING), Get(Apply(cs, MarkDone(result, []), now), RUNNING);
            after.Some? &&
            (after.value.result == Some(result) <==> !SaysSuccessful(before) || before.value.result == Some(result))
  {
    RunningAfterSuccess(cs, result, now);
  }

  /** Marking as running clears it, so a reconcile that manages the status reports
      its own result. */
  lemma MarkedRunReportsResult(cs: seq<Condition>, start: int, result: AnsibleResult, now: int)
    ensures var after := Get(Apply(Apply(cs, MarkRunning, start), MarkDone(result, []), now), RUNNING);
            after.Some? && after.value.result == Some(result)
  {
    var running := Condition(RUNNING, TRUE, start, None, "Running", "Running reconciliation");
    SetIsFound(Unset(cs, SUCCESSFUL), running);
    RunningAfterSuccess(Apply(cs, MarkRunning, start), result, now);
    assert "Running" != "Successful" by { assert |"Running"| == 7 && |"Successful"| == 10; }
  }

  /** Without it, a second success keeps the first one's result. */
  lemma SecondSuccessKeepsResult(first: AnsibleResult, second: AnsibleResult)
    ensures var once := Apply([], MarkDone(first, []), 1);
            var twice := Get(Apply(once, MarkDone(second, []), 2), RUNNING);
            twice.Some? && twice.value.result == Some(first)
  {
    RunningAfterSuccess([], first, 1);
    RunningAfterSuccess(Apply([], MarkDone(first, []), 1), second, 2);
  }

  /** A condition that says `status` for `reason` stays as it is; any other is
      replaced by one with this message and without a result. */
  predicate Replaced(before: Option<Condition>, after: Option<Condition>, status: string, reason: string,
      message: string)
  {
    && after.Some? && after.value.status == status && after.value.reason == reason
    && if before.Some? && before.value.status == status && before.value.reason == reason then after == before
       else after.value.message == message && after.value.result == None
  }

  /** What else is written: running at the start of a run, and success, failure and
      no success at its end. A failure that is over says nothing any more. */
  lemma OthersAreReported(cs: seq<Condition>, result: AnsibleResult, failures: seq<string>, now: int)
    ensures Replaced(Get(cs, RUNNING), Get(Apply(cs, MarkRunning, now), RUNNING), TRUE, "Running",
                     "Running reconciliation")
    ensures var after := Apply(cs, MarkDone(result, failures), now);
            if failures == [] then
              && Replaced(Get(cs, SUCCESSFUL), Get(after, SUCCESSFUL), TRUE, "Successful",
                          "Last reconciliation succeeded")
              && Get(after, FAILURE).Some? && Get(after, FAILURE).value.(time := 0) ==
                                              Condition(FAILURE, FALSE, 0, None, "", "")
            else
              Replaced(Get(cs, SUCCESSFUL), Get(after, SUCCESSFUL), FALSE, "", "")
  {
    StartIsReported(cs, now);
    if failures == [] {
      SuccessIsReported(cs, result, now);
    } else {
      var failure := Condition(FAILURE, TRUE, now, Some(result), "Failed", Join(failures, "\n"));
      var failed := Set(Unset(cs, RUNNING), failure);
      UnsetLeavesOthers(cs, RUNNING, SUCCESSFUL);
      SetLeavesOthers(Unset(cs, RUNNING), failure, SUCCESSFUL);
      SetIsFound(failed, Condition(SUCCESSFUL, FALSE, now, None, "", ""));
    }
  }

  lemma UnsetLeavesOthers(cs: seq<Condition>, other: string, kind: string)
    requires kind != other
    ensures Get(Unset(cs, other), kind) == Get(cs, kind)
  {
    var c := Get(cs, other);
    if c.Some? { SetLeavesOthers(cs, c.value.(status := FALSE), kind); }
  }

  lemma StartIsReported(cs: seq<Condition>, now: int)
    ensures Replaced(Get(cs, RUNNING), Get(Apply(cs, MarkRunning, now), RUNNING), TRUE, "Running",
                     "Running reconciliation")
  {
    UnsetLeavesOthers(cs, SUCCESSFUL, RUNNING);
    SetIsFound(Unset(cs, SUCCESSFUL), Condition(RUNNING, TRUE, now, None, "Running", "Running reconciliation"));
  }

  lemma SuccessIsReported(cs: seq<Condition>, result: AnsibleResult, now: int)
    ensures var after := Apply(cs, MarkDone(result, []), now);
            && Replaced(Get(cs, SUCCESSFUL), Get(after, SUCCESSFUL), TRUE, "Successful",
                        "Last reconciliation succeeded")
            && Get(after, FAILURE).Some?
            && Get(after, FAILURE).value.(time := 0) == Condition(FAILURE, FALSE, 0, None, "", "")
  {
    var running := Condition(RUNNING, TRUE, now, Some(result), "Successful", "Awaiting next reconciliation");
    var successful := Condition(SUCCESSFUL, TRUE, now, None, "Successful", "Last reconciliation succeeded");
    var failure := Condition(FAILURE, FALSE, now, None, "", "");
    var a := Set(cs, running);
    var b := Set(a, successful);
    SetLeavesOthers(cs, running, SUCCESSFUL);
    SetIsFound(a, successful);
    SetLeavesOthers(b, failure, SUCCESSFUL);
    SetIsFound(b, failure);
  }
}
