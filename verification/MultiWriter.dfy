/** The sustained multi-writer of chapter13/multi.go: it flattens one level when it is built, and keeps
    writing when one of its writers fails. */
module MultiWriter {
  import opened Bytes

  // ---------------------------------------------------------------- writing

  /** One Write call on a leaf writer, and what it returned: a count and an error, which may itself be
      a combination of several, or of none. */
  datatype Call = Call(id: nat, data: seq<Byte>)
  datatype Result = Result(n: int, errors: seq<nat>)

  /** Leaf writers may do anything: what one returns can depend on all the calls made so far. */
  type Behaviour = (seq<Call>, Call) -> Result

  /** The calls made by then, the summed count, and the errors in the order multierr collects them. */
  datatype Effect = Effect(log: seq<Call>, n: int, errors: seq<nat>)

  /** A first effect and one that starts from where it ended. */
  function Then(a: Effect, b: Effect): Effect {
    Effect(b.log, a.n + b.n, a.errors + b.errors)
  }

  function WriteLeaf(behave: Behaviour, log: seq<Call>, id: nat, p: seq<Byte>): Effect {
    var r := behave(log, Call(id, p));
    Effect(log + [Call(id, p)], r.n, r.errors)
  }

  function WriteLeaves(behave: Behaviour, log: seq<Call>, ids: seq<nat>, p: seq<Byte>): Effect {
    if ids == [] then Effect(log, 0, [])
    else
      var last := |ids| - 1;
      var before := WriteLeaves(behave, log, ids[..last], p);
      Then(before, WriteLeaf(behave, before.log, ids[last], p))
  }

  // ---------------------------------------------------------------- the nesting it is built from

  /** An expression of nested SustainedMultiWriter calls over leaf writers. */
  datatype Tree = Leaf(id: nat) | Node(children: seq<Tree>)

  /** Writing to the tree as it was meant, each node passing the write on to its children in turn. */
  function WriteTree(behave: Behaviour, log: seq<Call>, t: Tree, p: seq<Byte>): Effect
    decreases t, 1
  {
    match t
    case Leaf(id) => WriteLeaf(behave, log, id, p)
    case Node(children) => WriteTrees(behave, log, children, p)
  }

  function WriteTrees(behave: Behaviour, log: seq<Call>, ts: seq<Tree>, p: seq<Byte>): Effect
    decreases ts, 0
  {
    if ts == [] then Effect(log, 0, [])
    else
      var first := WriteTree(behave, log, ts[0], p);
      Then(first, WriteTrees(behave, first.log, ts[1..], p))
  }

  function Leaves(t: Tree): seq<nat>
    decreases t, 1
  {
    match t
    case Leaf(id) => [id]
    case Node(children) => LeavesOf(children)
  }

  function LeavesOf(ts: seq<Tree>): seq<nat>
    decreases ts, 0
  {
    if ts == [] then [] else Leaves(ts[0]) + LeavesOf(ts[1..])
  }

  // ---------------------------------------------------------------- flat and nested writing agree

  lemma ThenAssociative(a: Effect, b: Effect, c: Effect)
    ensures Then(Then(a, b), c) == Then(a, Then(b, c))
  {}

  lemma {:induction false} WriteLeavesSplit(behave: Behaviour, log: seq<Call>, a: seq<nat>, b: seq<nat>, p: seq<Byte>)
    ensures var first := WriteLeaves(behave, log, a, p);
            WriteLeaves(behave, log, a + b, p) == Then(first, WriteLeaves(behave, first.log, b, p))
  {
    hide WriteLeaf;
    if b == [] {
      assert a + b == a;
    } else {
      var last := |b| - 1;
      WriteLeavesSplit(behave, log, a, b[..last], p);
      var ab := a + b;
      assert ab[..|ab| - 1] == a + b[..last] && ab[|ab| - 1] == b[last];
      var first := WriteLeaves(behave, log, a, p);
      var middle := WriteLeaves(behave, first.log, b[..last], p);
      ThenAssociative(first, middle, WriteLeaf(behave, middle.log, b[last], p));
    }
  }

  lemma {:induction false} OneLeaf(behave: Behaviour, log: seq<Call>, id: nat, p: seq<Byte>)
    ensures WriteLeaves(behave, log, [id], p) == WriteLeaf(behave, log, id, p)
  {
    assert [id][..0] == [];
  }

  /** Writing to the flattened leaves is writing to the nested tree: the same calls in the same order, the
      same count, the same errors, whatever the leaves do. */
  lemma {:induction false} FlatIsNested(behave: Behaviour, log: seq<Call>, t: Tree, p: seq<Byte>)
    ensures WriteLeaves(behave, log, Leaves(t), p) == WriteTree(behave, log, t, p)
    decreases t, 1
  {
    match t
    case Leaf(id) => OneLeaf(behave, log, id, p);
    case Node(children) => FlatIsNestedAll(behave, log, children, p);
  }

  lemma {:induction false} FlatIsNestedAll(behave: Behaviour, log: seq<Call>, ts: seq<Tree>, p: seq<Byte>)
    ensures WriteLeaves(behave, log, LeavesOf(ts), p) == WriteTrees(behave, log, ts, p)
    decreases ts, 0
  {
    if ts != [] {
      FlatIsNested(behave, log, ts[0], p);
      var first := WriteTree(behave, log, ts[0], p);
      FlatIsNestedAll(behave, first.log, ts[1..], p);
      WriteLeavesSplit(behave, log, Leaves(ts[0]), LeavesOf(ts[1..]), p);
    }
  }

  /** No leaf is skipped, whatever failed before it: the calls are one for each leaf, in order. */
  lemma {:induction false} EveryLeafWritten(behave: Behaviour, log: seq<Call>, ids: seq<nat>, p: seq<Byte>)
    ensures WriteLeaves(behave, log, ids, p).log == log + seq(|ids|, i requires 0 <= i < |ids| => Call(ids[i], p))
  {
    if ids != [] {
      EveryLeafWritten(behave, log, ids[..|ids| - 1], p);
    }
  }

  // ---------------------------------------------------------------- what all the writers returned

  function Calls(ids: seq<nat>, p: seq<Byte>): seq<Call> {
    seq(|ids|, i requires 0 <= i < |ids| => Call(ids[i], p))
  }

  /** What each leaf returned: it was called when all those before it had been. */
  function Results(behave: Behaviour, log: seq<Call>, ids: seq<nat>, p: seq<Byte>): seq<Result> {
    seq(|ids|, i requires 0 <= i < |ids| => behave(log + Calls(ids[..i], p), Call(ids[i], p)))
  }

  function Sum(rs: seq<Result>): int {
    if rs == [] then 0 else rs[0].n + Sum(rs[1..])
  }

  function AllErrors(rs: seq<Result>): seq<nat> {
    if rs == [] then [] else rs[0].errors + AllErrors(rs[1..])
  }

  lemma {:induction false} OneMoreResult(rs: seq<Result>, r: Result)
    ensures Sum(rs + [r]) == Sum(rs) + r.n && AllErrors(rs + [r]) == AllErrors(rs) + r.errors
  {
    if rs == [] {
      assert rs + [r] == [r] && [r][1..] == [];
    } else {
      OneMoreResult(rs[1..], r);
      assert (rs + [r])[1..] == rs[1..] + [r];
      assert rs[0].errors + (AllErrors(rs[1..]) + r.errors) == rs[0].errors + AllErrors(rs[1..]) + r.errors;
    }
  }

  lemma ResultsGrow(behave: Behaviour, log: seq<Call>, ids: seq<nat>, p: seq<Byte>)
    requires ids != []
    ensures var last := |ids| - 1;
            Results(behave, log, ids, p)
            == Results(behave, log, ids[..last], p) + [behave(log + Calls(ids[..last], p), Call(ids[last], p))]
  {
    var last := |ids| - 1;
    assert forall i :: 0 <= i < last ==> ids[..last][..i] == ids[..i];
  }

  lemma NoResults(behave: Behaviour, log: seq<Call>, p: seq<Byte>)
    ensures Results(behave, log, [], p) == [] && Sum([]) == 0 && AllErrors([]) == []
  {}

  /** The count is the sum of all counts, and the errors are all errors in order, whoever failed. */
  lemma {:induction false} EverythingCollected(behave: Behaviour, log: seq<Call>, ids: seq<nat>, p: seq<Byte>)
    ensures var e, rs := WriteLeaves(behave, log, ids, p), Results(behave, log, ids, p);
            e.log == log + Calls(ids, p) && e.n == Sum(rs) && e.errors == AllErrors(rs)
  {
    hide Results, Sum, AllErrors;
    EveryLeafWritten(behave, log, ids, p);
    if ids == [] {
      NoResults(behave, log, p);
    } else {
      var last := |ids| - 1;
      EverythingCollected(behave, log, ids[..last], p);
      ResultsGrow(behave, log, ids, p);
      OneMoreResult(Results(behave, log, ids[..last], p), behave(log + Calls(ids[..last], p), Call(ids[last], p)));
    }
  }

  // ---------------------------------------------------------------- the objects

  /** The leaf writers and all that has been written to them. */
  class Outside {
    const behave: Behaviour
    var log: seq<Call>

    constructor (behave: Behaviour)
      ensures this.behave == behave && log == []
    {
      this.behave := behave;
      log := [];
    }

    method Write(id: nat, p: seq<Byte>) returns (n: int, errors: seq<nat>)
      modifies this
      ensures Effect(log, n, errors) == WriteLeaf(behave, old(log), id, p)
    {
      var r := behave(log, Call(id, p));
      log := log + [Call(id, p)];
      return r.n, r.errors;
    }
  }

  /** An io.Writer: a leaf, or the result of a SustainedMultiWriter call. */
  datatype Writer = Single(id: nat) | Multi(multi: SustainedMultiWriter)

  function Singles(ids: seq<nat>): seq<Writer> {
    seq(|ids|, i requires 0 <= i < |ids| => Single(ids[i]))
  }

  /** A writer that will reach exactly these leaves: itself one, or a multi-writer holding only leaves. */
  ghost predicate Reaches(w: Writer, ids: seq<nat>)
    reads if w.Multi? then {w.multi} else {}
  {
    if w.Single? then ids == [w.id] else w.multi.writers == Singles(ids)
  }

  function Joined(lists: seq<seq<nat>>): seq<nat> {
    if lists == [] then [] else Joined(lists[..|lists| - 1]) + lists[|lists| - 1]
  }

  lemma JoinedNext(lists: seq<seq<nat>>, i: nat)
    requires i < |lists|
    ensures Joined(lists[..i + 1]) == Joined(lists[..i]) + lists[i]
  {
    assert lists[..i + 1][..i] == lists[..i];
  }

  lemma SinglesJoin(a: seq<nat>, b: seq<nat>)
    ensures Singles(a + b) == Singles(a) + Singles(b)
    ensures |b| == 1 ==> Singles(b) == [Single(b[0])]
  {}

  class SustainedMultiWriter {
    var writers: seq<Writer>

    /** One level is flattened. Given writers that reach certain leaves, the new one holds just these. */
    constructor (ws: seq<Writer>, ghost reached: seq<seq<nat>>)
      requires |reached| == |ws| && forall i :: 0 <= i < |ws| ==> Reaches(ws[i], reached[i])
      ensures writers == Singles(Joined(reached))
    {
      writers := [];
      new;
      var i := 0;
      while i < |ws|
        invariant 0 <= i <= |ws|
        invariant forall j :: 0 <= j < |ws| && ws[j].Multi? ==>
                    ws[j].multi != this && ws[j].multi.writers == Singles(reached[j])
        invariant writers == Singles(Joined(reached[..i]))
        modifies this
      {
        assert Reaches(ws[i], reached[i]);
        JoinedNext(reached, i);
        SinglesJoin(Joined(reached[..i]), reached[i]);
        match ws[i] {
          case Multi(m) =>
            writers := writers + m.writers;
          case Single(id) =>
            writers := writers + [ws[i]];
        }
        i := i + 1;
      }
      assert reached[..i] == reached;
    }

    /** Every writer is written to; counts are summed and errors collected. */
    method Write(outside: Outside, p: seq<Byte>, ghost ids: seq<nat>) returns (n: int, errors: seq<nat>)
      requires writers == Singles(ids)
      modifies outside
      ensures Effect(outside.log, n, errors) == WriteLeaves(outside.behave, old(outside.log), ids, p)
      ensures var rs := Results(outside.behave, old(outside.log), ids, p);
              && outside.log == old(outside.log) + Calls(ids, p)
              && n == Sum(rs) && errors == AllErrors(rs)
    {
      hide Results, Sum, AllErrors, Calls;
      EverythingCollected(outside.behave, outside.log, ids, p);
      n, errors := 0, [];
      var i := 0;
      while i < |writers|
        invariant 0 <= i <= |writers|
        invariant Effect(outside.log, n, errors) == WriteLeaves(outside.behave, old(outside.log), ids[..i], p)
      {
        assert ids[..i + 1][..i] == ids[..i];
        var k, wErrors := outside.Write(writers[i].id, p);
        n := n + k;
        errors := errors + wErrors;
        i := i + 1;
      }
      assert ids[..i] == ids;
    }
  }

  /** The leaves of each child, and of all of them together. */
  function LeafLists(ts: seq<Tree>): seq<seq<nat>> {
    seq(|ts|, i requires 0 <= i < |ts| => Leaves(ts[i]))
  }

  lemma {:induction false} LeavesOfSplit(ts: seq<Tree>, t: Tree)
    ensures LeavesOf(ts + [t]) == LeavesOf(ts) + Leaves(t)
  {
    if ts == [] {
      assert ts + [t] == [t] && [t][1..] == [];
    } else {
      LeavesOfSplit(ts[1..], t);
      assert (ts + [t])[1..] == ts[1..] + [t];
    }
  }

  lemma {:induction false} JoinedLeaves(ts: seq<Tree>)
    ensures Joined(LeafLists(ts)) == LeavesOf(ts)
  {
    if ts != [] {
      var n := |ts| - 1;
      JoinedLeaves(ts[..n]);
      assert LeafLists(ts)[..n] == LeafLists(ts[..n]);
      LeavesOfSplit(ts[..n], ts[n]);
      assert ts[..n] + [ts[n]] == ts;
    }
  }

  /** Any nesting of calls, evaluated inside out, yields a writer that holds the leaves of the whole tree in
      order, with repeats, and nothing else. */
  method Build(t: Tree) returns (w: Writer)
    ensures Reaches(w, Leaves(t))
    ensures w.Single? <==> t.Leaf?
    decreases t
  {
    match t
    case Leaf(id) =>
      w := Single(id);
    case Node(children) =>
      var ws := [];
      var i := 0;
      while i < |children|
        invariant 0 <= i <= |children| && |ws| == i
        invariant forall j :: 0 <= j < i ==> Reaches(ws[j], Leaves(children[j]))
      {
        var child := Build(children[i]);
        ws := ws + [child];
        i := i + 1;
      }
      JoinedLeaves(children);
      var m := new SustainedMultiWriter(ws, LeafLists(children));
      w := Multi(m);
  }

  /** Built and written to, the flattened writer does what the tree was meant to do. */
  method BuildAndWrite(t: Tree, outside: Outside, p: seq<Byte>) returns (n: int, errors: seq<nat>)
    modifies outside
    ensures Effect(outside.log, n, errors) == WriteTree(outside.behave, old(outside.log), t, p)
    ensures var rs := Results(outside.behave, old(outside.log), Leaves(t), p);
            && outside.log == old(outside.log) + Calls(Leaves(t), p)
            && n == Sum(rs) && errors == AllErrors(rs)
  {
    hide Results, Sum, AllErrors, Calls;
    EverythingCollected(outside.behave, outside.log, Leaves(t), p);
    FlatIsNested(outside.behave, outside.log, t, p);
    var w := Build(t);
    match w
    case Single(id) =>
      n, errors := outside.Write(id, p);
      OneLeaf(outside.behave, old(outside.log), id, p);
    case Multi(m) =>
      n, errors := m.Write(outside, p, Leaves(t));
  }
}
