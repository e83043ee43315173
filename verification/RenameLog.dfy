/** The record of reference renames (src/document_merge.cpp, ReferenceRenameLog).

    The log maps an original name to the name it carries now. It is meant to be the composition
    of the simultaneous renames made so far, without identities. That holds step by step exactly
    as long as no step renames an item that kept its own name while another item was absorbed
    into it: such an item is found only through the ones it absorbed. Items are the originals, the
    names they had at first; a name no item had at first may be renamed at will. */
module RenameLog {
  import opened Bytes

  type Name = string

  type Renames = map<Name, Name>

  function Current(log: Renames, original: Name): Name {
    if original in log then log[original] else original
  }

  // ----- The reference: simultaneous renames, one after the other.

  ghost function Composed(steps: seq<Renames>, original: Name): Name {
    if steps == [] then original
    else Current(steps[|steps| - 1], Composed(steps[..|steps| - 1], original))
  }

  /** The log says of every item's original name what the composition does, and lists no name under itself. */
  ghost predicate Exact(originals: iset<Name>, log: Renames, steps: seq<Renames>) {
    && (forall x: Name :: x in originals ==> Current(log, x) == Composed(steps, x))
    && (forall x: Name :: x in log ==> log[x] != x)
  }

  // ----- The specification of one step.

  /** The originals that carry the name `current` after an earlier rename. */
  ghost predicate Holds(log: Renames, original: Name, current: Name) {
    original in log && log[original] == current
  }

  ghost predicate Held(log: Renames, current: Name) {
    exists original :: Holds(log, original, current)
  }

  /** The entry a step leaves for one original, before identities are dropped. */
  ghost function Entry(log: Renames, step: Renames, x: Name): Option<Name> {
    if x in log then Some(if log[x] in step then step[log[x]] else log[x])
    else if x in step && !Held(log, x) then Some(step[x])
    else None
  }

  ghost predicate IsRecord(log: Renames, step: Renames, next: Renames) {
    && (forall x: Name :: x in next <==> Entry(log, step, x).Some? && Entry(log, step, x).value != x)
    && (forall x: Name :: x in next ==> next[x] == Entry(log, step, x).value)
  }

  /** A log is determined by what it must hold. */
  lemma RecordIsUnique(log: Renames, step: Renames, a: Renames, b: Renames)
    requires IsRecord(log, step, a) && IsRecord(log, step, b)
    ensures a == b
  {
    assert a.Keys == b.Keys;
  }

  // ----- When the log stays exact.

  /** The step renames no item that kept its name and had another absorbed into it. A caller can
      read this off the log and the step before recording it. */
  ghost predicate Safe(originals: iset<Name>, log: Renames, step: Renames) {
    forall name: Name :: name in originals && name in step && Held(log, name) && name !in log ==> step[name] == name
  }

  lemma RecordCurrent(log: Renames, step: Renames, next: Renames, x: Name)
    requires IsRecord(log, step, next)
    ensures Current(next, x) ==
      if x in log || !Held(log, x) then Current(step, Current(log, x)) else x
  {
  }

  lemma RecordExactAt(log: Renames, steps: seq<Renames>, step: Renames, next: Renames, x: Name)
    requires Current(log, x) == Composed(steps, x) && IsRecord(log, step, next)
    ensures Current(next, x) == Composed(steps + [step], x) <==> !(x in step && Held(log, x) && x !in log) || step[x] == x
  {
    assert (steps + [step])[..|steps|] == steps;
    RecordCurrent(log, step, next, x);
    hide IsRecord, Held;
  }

  /** One step keeps the log exact if and only if it is safe. */
  lemma RecordExactIff(originals: iset<Name>, log: Renames, steps: seq<Renames>, step: Renames, next: Renames)
    requires Exact(originals, log, steps) && IsRecord(log, step, next)
    ensures Exact(originals, next, steps + [step]) <==> Safe(originals, log, step)
  {
    var more := steps + [step];
    assert forall x: Name :: x in next ==> next[x] != x;
    hide IsRecord, Held, Current, Composed;
    forall x: Name | x in originals
      ensures Current(next, x) == Composed(more, x) <==> !(x in step && Held(log, x) && x !in log) || step[x] == x
    {
      RecordExactAt(log, steps, step, next, x);
    }
  }

  // ----- Whole sequences of steps.

  ghost function After(log: Renames, step: Renames): Renames {
    map x: Name | x in log.Keys + step.Keys && Entry(log, step, x).Some? && Entry(log, step, x).value != x ::
      Entry(log, step, x).value
  }

  lemma AfterIsRecord(log: Renames, step: Renames)
    ensures IsRecord(log, step, After(log, step))
  {
  }

  ghost function LogOf(steps: seq<Renames>): Renames {
    if steps == [] then map[] else After(LogOf(steps[..|steps| - 1]), steps[|steps| - 1])
  }

  ghost predicate AllSafe(originals: iset<Name>, steps: seq<Renames>) {
    steps == [] ||
    (AllSafe(originals, steps[..|steps| - 1]) && Safe(originals, LogOf(steps[..|steps| - 1]), steps[|steps| - 1]))
  }

  ghost predicate AlwaysExact(originals: iset<Name>, steps: seq<Renames>) {
    Exact(originals, LogOf(steps), steps) && (steps == [] || AlwaysExact(originals, steps[..|steps| - 1]))
  }

  /** The log is the composition after every step of a sequence exactly when every step was safe. */
  lemma {:induction false} LogIsCompositionIff(originals: iset<Name>, steps: seq<Renames>)
    ensures AlwaysExact(originals, steps) <==> AllSafe(originals, steps)
    decreases |steps|
  {
    if steps != [] {
      var before, last := steps[..|steps| - 1], steps[|steps| - 1];
      assert before + [last] == steps;
      LogIsCompositionIff(originals, before);
      AfterIsRecord(LogOf(before), last);
      hide After, Safe, Exact;
      if AlwaysExact(originals, before) {
        RecordExactIff(originals, LogOf(before), before, last, LogOf(steps));
      }
    }
  }

  // ----- A name an item had, and one that none had.

  lemma OneName(from: Name, to: Name)
    requires from != to
    ensures LogOf([map[from := to]]) == map[from := to]
  {
    var step: Renames := map[from := to];
    assert [step][..0] == [] && LogOf([]) == map[];
    AfterIsRecord(map[], step);
    assert LogOf([step]) == After(map[], step);
    RecordIsUnique(map[], step, LogOf([step]), step);
  }

  lemma Letters()
    ensures "a" != "b" && "b" != "c" && "a" != "c"
  {
    assert "a"[0] != "b"[0] && "b"[0] != "c"[0] && "a"[0] != "c"[0];
  }

  lemma TwoMoves()
    ensures
      var steps: seq<Renames> := [map["a" := "b"], map["b" := "c"]];
      LogOf(steps) == map["a" := "c"] && Composed(steps, "a") == "c" && Composed(steps, "b") == "c"
  {
    var first: Renames, second: Renames := map["a" := "b"], map["b" := "c"];
    var steps := [first, second];
    assert steps[..1] == [first] && [first][..0] == [];
    Letters();
    OneName("a", "b");
    AfterIsRecord(first, second);
    assert Holds(first, "a", "b");
    RecordIsUnique(first, second, LogOf(steps), map["a" := "c"]);
    assert Composed([], "a") == "a" && Composed([first], "a") == "b" && Composed([first], "b") == "b";
  }

  /** The side condition is needed: an item `b` absorbs an item `a`, then moves; the log still calls it `b`. */
  lemma AbsorbedThenMoved()
    ensures
      var steps: seq<Renames> := [map["a" := "b"], map["b" := "c"]];
      && LogOf(steps) == map["a" := "c"]
      && Current(LogOf(steps), "b") == "b" && Composed(steps, "b") == "c"
      && !AllSafe(iset{"a", "b"}, steps)
  {
    var steps: seq<Renames> := [map["a" := "b"], map["b" := "c"]];
    TwoMoves();
    Letters();
    LogIsCompositionIff(iset{"a", "b"}, steps);
    hide AllSafe, LogOf, Composed;
    assert !Exact(iset{"a", "b"}, LogOf(steps), steps);
  }

  /** The same steps are safe where no item was called `b` at first: the one called `a` moves twice. */
  lemma FreshNameMoves()
    ensures
      var steps: seq<Renames> := [map["a" := "b"], map["b" := "c"]];
      AllSafe(iset{"a"}, steps) && Exact(iset{"a"}, LogOf(steps), steps)
  {
    var first: Renames, second: Renames := map["a" := "b"], map["b" := "c"];
    var steps := [first, second];
    assert steps[..1] == [first] && [first][..0] == [];
    Letters();
    OneName("a", "b");
    LogIsCompositionIff(iset{"a"}, steps);
    assert Safe(iset{"a"}, map[], first) && Safe(iset{"a"}, first, second);
    assert LogOf([]) == map[];
    assert AllSafe(iset{"a"}, [first]);
  }

  /** The names the items carry by the log. */
  ghost function Carried(originals: iset<Name>, log: Renames): iset<Name> {
    iset x: Name | x in originals :: Current(log, x)
  }

  /** A nested log closes by handing its composition outward as one step: the outer log then says
      what it would say of the inner steps one by one. The inner log's originals are the names the
      items carried when it was opened. */
  lemma NestedLogHandsOnComposition(originals: iset<Name>, outer: seq<Renames>, inner: seq<Renames>, log: Renames, closed: Renames)
    requires Exact(originals, log, outer) && AllSafe(Carried(originals, log), inner)
    requires IsRecord(log, LogOf(inner), closed)
    ensures Safe(originals, log, LogOf(inner)) <==> Exact(originals, closed, outer + inner)
  {
    LogIsCompositionIff(Carried(originals, log), inner);
    var step := LogOf(inner);
    assert Exact(Carried(originals, log), step, inner);
    hide AllSafe, AlwaysExact, LogOf, IsRecord, Safe;
    forall x: Name | x in originals ensures Composed(outer + inner, x) == Composed(outer + [step], x) {
      ComposedConcat(outer, inner, x);
      ComposedConcat(outer, [step], x);
      assert [step][..0] == [];
      assert Current(log, x) in Carried(originals, log);
    }
    RecordExactIff(originals, log, outer, step, closed);
  }

  lemma {:induction false} ComposedConcat(a: seq<Renames>, b: seq<Renames>, x: Name)
    ensures Composed(a + b, x) == Composed(b, Composed(a, x))
  {
    if b == [] {
      assert a + b == a;
    } else {
      assert (a + b)[..|a + b| - 1] == a + b[..|b| - 1];
      ComposedConcat(a, b[..|b| - 1], x);
    }
  }

  // ----- The program.

  class ReferenceRenameLog {
    var currentOf: Renames

    constructor ()
      ensures currentOf == map[]
    {
      currentOf := map[];
    }

    method Record(step: Renames)
      modifies this
      ensures IsRecord(old(currentOf), step, currentOf)
    {
      var next := ApplyStep(currentOf, step);
      currentOf := map x: Name | x in next && next[x] != x :: next[x];
    }

    /** Closing a nested log records what it composed with the one it was opened under. */
    method CloseInto(previous: ReferenceRenameLog)
      requires previous != this
      modifies previous
      ensures IsRecord(old(previous.currentOf), currentOf, previous.currentOf)
    {
      previous.Record(currentOf);
    }
  }

  /** What the names applied so far leave of the log, identities still in it. */
  ghost predicate Applied(log: Renames, step: Renames, names: set<Name>, next: Renames)
    requires names <= step.Keys
  {
    && (forall x: Name :: x in next <==> x in log || (x in names && !Held(log, x)))
    && (forall x: Name :: x in next ==>
          next[x] == (if x !in log then step[x] else if log[x] in names then step[log[x]] else log[x]))
  }

  method ApplyStep(log: Renames, step: Renames) returns (next: Renames)
    ensures forall x: Name :: x in next <==> Entry(log, step, x).Some?
    ensures forall x: Name :: x in next ==> next[x] == Entry(log, step, x).value
  {
    var holders := HoldersOf(log);
    hide Held, Holds, Applied, Entry;
    next := log;
    var todo := step.Keys;
    NothingApplied(log, step);
    while todo != {}
      invariant todo <= step.Keys
      invariant Applied(log, step, step.Keys - todo, next)
      decreases |todo|
    {
      var from :| from in todo;
      ghost var names := step.Keys - todo;
      todo := todo - {from};
      ghost var before := next;
      if from in holders {
        AppliedKeeps(log, step, names, next);
        next := Redirect(log, next, holders[from], from, step[from]);
      } else if from !in log {
        next := next[from := step[from]];
      }
      AppliedNext(log, step, names, before, from, next);
      assert step.Keys - todo == names + {from};
    }
    AppliedAll(log, step, step.Keys - todo, next);
  }

  lemma NothingApplied(log: Renames, step: Renames)
    ensures Applied(log, step, step.Keys - step.Keys, log)
  {
  }

  lemma AppliedKeeps(log: Renames, step: Renames, names: set<Name>, next: Renames)
    requires names <= step.Keys && Applied(log, step, names, next)
    ensures log.Keys <= next.Keys
  {
  }

  lemma AppliedAll(log: Renames, step: Renames, names: set<Name>, next: Renames)
    requires names == step.Keys && Applied(log, step, names, next)
    ensures forall x: Name :: x in next <==> Entry(log, step, x).Some?
    ensures forall x: Name :: x in next ==> next[x] == Entry(log, step, x).value
  {
    hide Held;
  }

  lemma AppliedNext(log: Renames, step: Renames, names: set<Name>, before: Renames, from: Name, next: Renames)
    requires names <= step.Keys && from in step && Applied(log, step, names, before)
    requires
      if Held(log, from) then
        next.Keys == before.Keys &&
        (forall x: Name :: x in next ==> next[x] == if Holds(log, x, from) then step[from] else before[x])
      else if from !in log then next == before[from := step[from]]
      else next == before
    ensures Applied(log, step, names + {from}, next)
  {
    assert forall x: Name :: x in log && log[x] == from <==> Holds(log, x, from);
  }

  method HoldersOf(log: Renames) returns (holders: map<Name, set<Name>>)
    ensures forall name: Name :: name in holders <==> Held(log, name)
    ensures forall name: Name, x: Name :: name in holders ==> (x in holders[name] <==> Holds(log, x, name))
  {
    holders := map[];
    var todo := log.Keys;
    while todo != {}
      invariant todo <= log.Keys
      invariant forall name: Name :: name in holders ==> holders[name] != {}
      invariant forall name: Name, x: Name :: name in holders ==> (x in holders[name] <==> x !in todo && Holds(log, x, name))
      invariant forall name: Name, x: Name :: x !in todo && Holds(log, x, name) ==> name in holders
      decreases |todo|
    {
      var original :| original in todo;
      todo := todo - {original};
      var current := log[original];
      holders := holders[current := (if current in holders then holders[current] else {}) + {original}];
    }
    forall name: Name | name in holders ensures Held(log, name) {
      var x :| x in holders[name];
      assert Holds(log, x, name);
    }
  }

  /** Every original that carries `from` goes on to `to`. */
  method Redirect(log: Renames, before: Renames, originals: set<Name>, from: Name, to: Name) returns (next: Renames)
    requires forall x: Name :: x in originals <==> Holds(log, x, from)
    requires log.Keys <= before.Keys
    ensures next.Keys == before.Keys
    ensures forall x: Name :: x in next ==> next[x] == if Holds(log, x, from) then to else before[x]
  {
    next := before;
    var todo := originals;
    while todo != {}
      invariant todo <= originals && next.Keys == before.Keys
      invariant forall x: Name :: x in next ==> next[x] == if x in originals - todo then to else before[x]
      decreases |todo|
    {
      var original :| original in todo;
      todo := todo - {original};
      assert Holds(log, original, from);
      next := next[original := to];
    }
  }
}
