/** Executing a layered graph of one-input operations with buffer reuse: what blas/cpu/GraphExecutioner.cpp does to the
    variables' arrays, and when that is dataflow. A buffer is an address in memory; a variable whose array is null is
    absent from arrays; a view has the address of the array it is a view of. */
module GraphModel {

  datatype OpType = Transform | Scalar

  /** op stands for the operation with its parameters. The ids of nodes are positive, those of external variables
      negative. */
  datatype Node = Node(id: int, opType: OpType, op: nat, input: int, output: seq<int>, hasExternalOutputs: bool)

  type Value = seq<real>

  /** What the operations compute, element by element, so that writing over the operand is safe. */
  datatype Ops = Ops(apply: (nat, Value) -> Value)

  datatype State = State(arrays: map<int, nat>, memory: seq<Value>)

  function Load(s: State, id: int): Value {
    if id in s.arrays && s.arrays[id] < |s.memory| then s.memory[s.arrays[id]] else []
  }

  function Store(s: State, id: int, v: Value): State {
    if id in s.arrays && s.arrays[id] < |s.memory| then s.(memory := s.memory[s.arrays[id] := v]) else s
  }

  /** A new array for a variable. */
  function Allocate(s: State, id: int, v: Value): State {
    State(s.arrays[id := |s.memory|], s.memory + [v])
  }

  /** A view of another variable's array. */
  function View(s: State, id: int, of: int): State {
    if of in s.arrays then s.(arrays := s.arrays[id := s.arrays[of]]) else s
  }

  // ----- one node

  function NodeIndex(nodes: seq<Node>, id: int): (i: nat)
    ensures i <= |nodes| && (i < |nodes| ==> nodes[i].id == id)
    ensures forall j | 0 <= j < i :: nodes[j].id != id
  {
    if nodes == [] || nodes[0].id == id then 0 else 1 + NodeIndex(nodes[1..], id)
  }

  /** The node's operand is used in several places, so it must be kept. */
  predicate Kept(nodes: seq<Node>, input: int) {
    input > 0 && NodeIndex(nodes, input) < |nodes| && |nodes[NodeIndex(nodes, input)].output| > 1
  }

  /** The output's array: its own, a copy, or a view of the input's. A SCALAR node makes its copy even when it has an
      array already. */
  function Prepare(nodes: seq<Node>, s: State, n: Node): State {
    match n.opType
    case Transform =>
      if n.id in s.arrays then s
      else if Kept(nodes, n.input) then Allocate(s, n.id, Load(s, n.input))
      else View(s, n.id, n.input)
    case Scalar =>
      if Kept(nodes, n.input) then Allocate(s, n.id, Load(s, n.input))
      else if n.id in s.arrays then s
      else View(s, n.id, n.input)
  }

  function Compute(nodes: seq<Node>, ops: Ops, s: State, n: Node): State {
    Store(Prepare(nodes, s, n), n.id, ops.apply(n.op, Load(s, n.input)))
  }

  /** The external outputs. TRANSFORM skips entries from 0 on, SCALAR those from 1 on. */
  predicate External(n: Node, e: int) {
    n.hasExternalOutputs && if n.opType.Transform? then e < 0 else e <= 0
  }

  function ExternalIds(n: Node, outs: seq<int>): (ids: seq<int>)
    ensures forall o <- ids :: o in outs && External(n, o)
    ensures forall o <- outs :: External(n, o) ==> o in ids
  {
    if outs == [] then [] else
      var init := ExternalIds(n, outs[..|outs| - 1]);
      if External(n, outs[|outs| - 1]) then init + [outs[|outs| - 1]] else init
  }

  function Announce(s: State, o: int, id: int): State {
    if o !in s.arrays then Allocate(s, o, Load(s, id))
    else if id in s.arrays && s.arrays[o] == s.arrays[id] then s
    else Store(s, o, Load(s, id))
  }

  function AnnounceAll(s: State, outs: seq<int>, id: int): State {
    if outs == [] then s else Announce(AnnounceAll(s, outs[..|outs| - 1], id), outs[|outs| - 1], id)
  }

  function Execute(nodes: seq<Node>, ops: Ops, s: State, n: Node): State {
    AnnounceAll(Compute(nodes, ops, s, n), ExternalIds(n, n.output), n.id)
  }

  /** The first k nodes. */
  function ExecuteAll(nodes: seq<Node>, ops: Ops, s: State, k: nat): State
    requires k <= |nodes|
  {
    if k == 0 then s else Execute(nodes, ops, ExecuteAll(nodes, ops, s, k - 1), nodes[k - 1])
  }

  // ----- dataflow

  /** What node i computes when nothing is ever overwritten. */
  function Meaning(nodes: seq<Node>, ops: Ops, s: State, i: nat): Value
    requires i < |nodes|
  {
    var n := nodes[i];
    if n.input < 0 then ops.apply(n.op, Load(s, n.input)) else
      var j := NodeIndex(nodes, n.input);
      if j < i then ops.apply(n.op, Meaning(nodes, ops, s, j)) else []
  }

  predicate Consumes(n: Node, id: int) {
    n.input == id
  }

  /** A leaf of the graph. */
  predicate Leaf(nodes: seq<Node>, i: nat)
    requires i < |nodes|
  {
    forall j | 0 <= j < |nodes| :: !Consumes(nodes[j], nodes[i].id)
  }

  /** Node i reads external variable or a node before it that lists it among its consumers. */
  predicate Fed(nodes: seq<Node>, s: State, i: nat)
    requires i < |nodes|
  {
    var n := nodes[i];
    if n.input < 0 then n.input in s.arrays
    else NodeIndex(nodes, n.input) < i && n.id in nodes[NodeIndex(nodes, n.input)].output
  }

  /** The external outputs of node i are negative, no node's input, and no other node's output. */
  predicate Apart(nodes: seq<Node>, i: nat)
    requires i < |nodes|
  {
    nodes[i].hasExternalOutputs ==>
      && (nodes[i].opType.Scalar? ==> 0 !in nodes[i].output)
      && forall o | o in nodes[i].output && o < 0 ::
           forall j | 0 <= j < |nodes| ::
             !Consumes(nodes[j], o) && (j != i && nodes[j].hasExternalOutputs ==> o !in nodes[j].output)
  }

  /** The external variables have arrays of their own; node variables are fresh. */
  predicate Fresh(s: State) {
    && (forall id | id in s.arrays :: id < 0 && s.arrays[id] < |s.memory|)
    && (forall id, id' | id in s.arrays && id' in s.arrays && id != id' :: s.arrays[id] != s.arrays[id'])
  }

  /** A graph as buildGraph leaves it, in the order of execution, with fresh variables. */
  predicate Sound(nodes: seq<Node>, s: State) {
    && Fresh(s)
    && (forall i | 0 <= i < |nodes| :: nodes[i].id > 0 && Fed(nodes, s, i) && Apart(nodes, i))
    && (forall i, j | 0 <= i < j < |nodes| :: nodes[i].id != nodes[j].id)
  }

  /** No external variable has two consumers. */
  predicate SoleConsumers(nodes: seq<Node>) {
    forall i, j | 0 <= i < j < |nodes| && nodes[i].input < 0 :: !Consumes(nodes[j], nodes[i].input)
  }

  /** Every leaf and every external output holds its meaning. */
  predicate Correct(nodes: seq<Node>, ops: Ops, s: State, t: State) {
    && (forall i | 0 <= i < |nodes| && Leaf(nodes, i) :: Load(t, nodes[i].id) == Meaning(nodes, ops, s, i))
    && (forall i, o | 0 <= i < |nodes| && nodes[i].hasExternalOutputs && o in nodes[i].output && o < 0 ::
          Load(t, o) == Meaning(nodes, ops, s, i))
  }

  // ----- addresses

  ghost predicate ExternalOf(nodes: seq<Node>, i: nat, o: int)
    requires i < |nodes|
  {
    o in nodes[i].output && External(nodes[i], o)
  }

  lemma IndexOfNode(nodes: seq<Node>, s: State, i: nat)
    requires Sound(nodes, s) && i < |nodes|
    ensures NodeIndex(nodes, nodes[i].id) == i
  {
  }

  lemma NotAnnounced(nodes: seq<Node>, s: State, k: nat)
    requires Sound(nodes, s) && k < |nodes|
    ensures forall i | 0 <= i < |nodes| :: !ExternalOf(nodes, i, nodes[k].input)
  {
    forall i | 0 <= i < |nodes|
      ensures !ExternalOf(nodes, i, nodes[k].input)
    {
      assert Apart(nodes, i);
      assert Consumes(nodes[k], nodes[k].input);
    }
  }

  ghost predicate IsOutput(nodes: seq<Node>, o: int) {
    exists i :: 0 <= i < |nodes| && ExternalOf(nodes, i, o)
  }

  /** Addresses exist, and external outputs share theirs with nothing. */
  ghost predicate Sane(nodes: seq<Node>, t: State) {
    && (forall id | id in t.arrays :: t.arrays[id] < |t.memory|)
    && (forall id, o | id in t.arrays && o in t.arrays && id != o && IsOutput(nodes, o) :: t.arrays[id] != t.arrays[o])
  }

  /** Which variables have arrays after k nodes. */
  ghost predicate Present(nodes: seq<Node>, s: State, t: State, k: nat)
    requires k <= |nodes|
  {
    && (forall v | v in s.arrays :: v in t.arrays)
    && (forall i | 0 <= i < k :: nodes[i].id in t.arrays)
    && (forall id | id in t.arrays && id > 0 :: NodeIndex(nodes, id) < k)
  }

  lemma ComputeSane(nodes: seq<Node>, ops: Ops, t: State, n: Node)
    requires Sane(nodes, t) && n.input in t.arrays && n.id !in t.arrays && !IsOutput(nodes, n.id)
      && !IsOutput(nodes, n.input)
    ensures var t' := Compute(nodes, ops, t, n);
      Sane(nodes, t') && forall id :: id in t'.arrays <==> id in t.arrays || id == n.id
  {
    hide Kept, IsOutput;
  }

  lemma AnnounceKeeps(nodes: seq<Node>, t: State, o: int, id: int)
    requires Sane(nodes, t) && IsOutput(nodes, o)
    ensures var t' := Announce(t, o, id);
      && Sane(nodes, t')
      && (forall x | x in t.arrays && !IsOutput(nodes, x) :: x in t'.arrays && Load(t', x) == Load(t, x))
      && (forall x :: x in t'.arrays <==> x in t.arrays || x == o)
  {
    hide IsOutput;
  }

  lemma {:induction false} AnnounceAllKeeps(nodes: seq<Node>, t: State, outs: seq<int>, id: int)
    requires Sane(nodes, t) && forall o | o in outs :: IsOutput(nodes, o)
    ensures var t' := AnnounceAll(t, outs, id);
      && Sane(nodes, t')
      && (forall x | x in t.arrays && !IsOutput(nodes, x) :: x in t'.arrays && Load(t', x) == Load(t, x))
      && (forall x :: x in t'.arrays <==> x in t.arrays || x in outs)
  {
    hide IsOutput, Sane, Announce, Load;
    if outs != [] {
      var init, o := outs[..|outs| - 1], outs[|outs| - 1];
      assert outs == init + [o];
      AnnounceAllKeeps(nodes, t, init, id);
      AnnounceKeeps(nodes, AnnounceAll(t, init, id), o, id);
    }
  }

  lemma NotOutput(nodes: seq<Node>, s: State, k: nat)
    requires Sound(nodes, s) && k < |nodes|
    ensures !IsOutput(nodes, nodes[k].id) && !IsOutput(nodes, nodes[k].input)
    ensures forall o | o in ExternalIds(nodes[k], nodes[k].output) :: o < 0 && IsOutput(nodes, o)
  {
    NotAnnounced(nodes, s, k);
    forall i | 0 <= i < |nodes|
      ensures !ExternalOf(nodes, i, nodes[k].id)
    {
      assert Apart(nodes, i);
    }
    forall o | o in ExternalIds(nodes[k], nodes[k].output)
      ensures o < 0 && IsOutput(nodes, o)
    {
      assert ExternalOf(nodes, k, o) && Apart(nodes, k);
    }
  }

  /** The next node finds its operand, and has no array yet. */
  lemma Ready(nodes: seq<Node>, s: State, t: State, k: nat)
    requires Sound(nodes, s) && k < |nodes| && Present(nodes, s, t, k)
    ensures nodes[k].input in t.arrays && nodes[k].id !in t.arrays
  {
    assert Fed(nodes, s, k);
    IndexOfNode(nodes, s, k);
    if nodes[k].input >= 0 { assert nodes[NodeIndex(nodes, nodes[k].input)].id == nodes[k].input; }
  }

  lemma StepSane(nodes: seq<Node>, ops: Ops, s: State, t: State, k: nat)
    requires Sound(nodes, s) && k < |nodes| && Sane(nodes, t) && Present(nodes, s, t, k)
    ensures var t' := Execute(nodes, ops, t, nodes[k]); Sane(nodes, t') && Present(nodes, s, t', k + 1)
  {
    hide Kept, IsOutput, Sane, Compute;
    var n := nodes[k];
    Ready(nodes, s, t, k);
    IndexOfNode(nodes, s, k);
    NotOutput(nodes, s, k);
    ComputeSane(nodes, ops, t, n);
    AnnounceAllKeeps(nodes, Compute(nodes, ops, t, n), ExternalIds(n, n.output), n.id);
  }

  lemma StartSane(nodes: seq<Node>, s: State)
    requires Sound(nodes, s)
    ensures Sane(nodes, s) && Present(nodes, s, s, 0)
  {
  }

  lemma {:induction false} RunSane(nodes: seq<Node>, ops: Ops, s: State, k: nat)
    requires Sound(nodes, s) && k <= |nodes|
    ensures Sane(nodes, ExecuteAll(nodes, ops, s, k)) && Present(nodes, s, ExecuteAll(nodes, ops, s, k), k)
  {
    hide Sane, Present, Sound, Execute, Load;
    if k == 0 {
      StartSane(nodes, s);
    } else {
      RunSane(nodes, ops, s, k - 1);
      StepSane(nodes, ops, s, ExecuteAll(nodes, ops, s, k - 1), k - 1);
    }
  }

  // ----- ownership: the variables whose arrays are still to be read, each with a buffer of its own

  type Owners = map<int, Value>

  /** When the operations keep sizes, an empty buffer never changes and may have several owners. */
  predicate Shareable(lax: bool, v: Value) {
    lax && v == []
  }

  ghost predicate KeepsSizes(ops: Ops) {
    forall op, x :: |ops.apply(op, x)| == |x|
  }

  /** Every owner's array is its own, unless shareable, and holds its value. */
  ghost predicate Holds(s: State, e: Owners, lax: bool) {
    && (forall id | id in e :: id in s.arrays && s.arrays[id] < |s.memory| && s.memory[s.arrays[id]] == e[id])
    && (forall id, id' | id in e && id' in e && id != id' :: s.arrays[id] != s.arrays[id'] || Shareable(lax, e[id]))
  }

  /** The owners once x has given its buffer to a view. */
  function Without(e: Owners, x: int, lax: bool): Owners {
    if x in e && Shareable(lax, e[x]) then e else e - {x}
  }

  lemma HoldsView(s: State, e: Owners, x: int, z: int, w: Value, lax: bool)
    requires Holds(s, e, lax) && x in e && z !in e && (Shareable(lax, e[x]) ==> w == [])
    ensures Holds(Store(View(s, z, x), z, w), Without(e, x, lax)[z := w], lax)
  {
  }

  lemma HoldsAllocate(s: State, e: Owners, z: int, v: Value, lax: bool)
    requires Holds(s, e, lax)
    ensures Holds(Allocate(s, z, v), e[z := v], lax)
    ensures forall id | id in e && id != z :: s.arrays[id] != Allocate(s, z, v).arrays[z]
  {
  }

  lemma HoldsStore(s: State, e: Owners, z: int, v: Value, lax: bool)
    requires Holds(s, e, lax) && z in e && forall id | id in e && id != z :: s.arrays[id] != s.arrays[z]
    ensures Holds(Store(s, z, v), e[z := v], lax)
  {
  }

  // ----- who owns what after each node

  function Announced(e: Owners, outs: seq<int>, w: Value): Owners {
    if outs == [] then e else Announced(e, outs[..|outs| - 1], w)[outs[|outs| - 1] := w]
  }

  function Result(ops: Ops, e: Owners, n: Node): Value {
    ops.apply(n.op, if n.input in e then e[n.input] else [])
  }

  /** The owners among those before that still own their buffers after node n has run. */
  function Remaining(nodes: seq<Node>, e: Owners, n: Node, lax: bool): Owners {
    if Kept(nodes, n.input) then e else Without(e, n.input, lax)
  }

  function OwnersAfter(nodes: seq<Node>, ops: Ops, e: Owners, n: Node, lax: bool): Owners {
    var w := Result(ops, e, n);
    Announced(Remaining(nodes, e, n, lax)[n.id := w], ExternalIds(n, n.output), w)
  }

  function OwnersAll(nodes: seq<Node>, ops: Ops, e: Owners, k: nat, lax: bool): Owners
    requires k <= |nodes|
  {
    if k == 0 then e else OwnersAfter(nodes, ops, OwnersAll(nodes, ops, e, k - 1, lax), nodes[k - 1], lax)
  }

  lemma HoldsCompute(nodes: seq<Node>, ops: Ops, s: State, e: Owners, n: Node, lax: bool)
    requires Holds(s, e, lax) && n.input in e && n.id !in e && n.id !in s.arrays && (lax ==> KeepsSizes(ops))
    ensures var w := Result(ops, e, n);
      Holds(Compute(nodes, ops, s, n), Remaining(nodes, e, n, lax)[n.id := w], lax)
  {
    hide Kept;
    var w, v := Result(ops, e, n), Load(s, n.input);
    if Kept(nodes, n.input) {
      HoldsAllocate(s, e, n.id, v, lax);
      HoldsStore(Allocate(s, n.id, v), e[n.id := v], n.id, w, lax);
      assert e[n.id := v][n.id := w] == e[n.id := w];
    } else {
      assert lax ==> |ops.apply(n.op, e[n.input])| == |e[n.input]|;
      HoldsView(s, e, n.input, n.id, w, lax);
    }
  }

  lemma HoldsAnnounceOne(nodes: seq<Node>, s: State, e: Owners, o: int, id: int, w: Value, lax: bool)
    requires Holds(s, e, lax) && id in e && e[id] == w && id != o && Sane(nodes, s) && IsOutput(nodes, o)
    requires o in s.arrays ==> o in e
    ensures Holds(Announce(s, o, id), e[o := w], lax)
    ensures forall x | x in Announce(s, o, id).arrays :: x in s.arrays || x == o
  {
    if o !in s.arrays {
      HoldsAllocate(s, e, o, w, lax);
    } else {
      HoldsStore(s, e, o, w, lax);
    }
  }

  /** The announcements: each output either has no array yet or owns one. */
  lemma {:induction false} HoldsAnnounce(nodes: seq<Node>, s: State, e: Owners, outs: seq<int>, id: int, w: Value,
      lax: bool)
    requires Holds(s, e, lax) && id in e && e[id] == w && id !in outs
    requires Sane(nodes, s) && forall o | o in outs :: IsOutput(nodes, o) && (o in s.arrays ==> o in e)
    ensures Holds(AnnounceAll(s, outs, id), Announced(e, outs, w), lax)
    ensures id in Announced(e, outs, w) && Announced(e, outs, w)[id] == w
    ensures forall o | o in AnnounceAll(s, outs, id).arrays :: o in s.arrays || o in outs
    ensures forall o | o in e || o in outs :: o in Announced(e, outs, w)
  {
    if outs != [] {
      var init, o := outs[..|outs| - 1], outs[|outs| - 1];
      HoldsAnnounce(nodes, s, e, init, id, w, lax);
      AnnounceAllKeeps(nodes, s, init, id);
      HoldsAnnounceOne(nodes, AnnounceAll(s, init, id), Announced(e, init, w), o, id, w, lax);
    }
  }

  lemma {:induction false} AnnouncedIs(e: Owners, outs: seq<int>, w: Value)
    ensures forall id :: id in Announced(e, outs, w) <==> id in e || id in outs
    ensures forall id | id in Announced(e, outs, w) :: Announced(e, outs, w)[id] == if id in outs then w else e[id]
  {
    if outs != [] {
      AnnouncedIs(e, outs[..|outs| - 1], w);
      assert outs == outs[..|outs| - 1] + [outs[|outs| - 1]];
    }
  }

  /** At the start every external variable owns its array. */
  function FirstOwners(s: State): Owners {
    map id | id in s.arrays :: Load(s, id)
  }

  ghost predicate ConsumedBefore(nodes: seq<Node>, id: int, k: nat)
    requires k <= |nodes|
  {
    exists i :: 0 <= i < k && Consumes(nodes[i], id)
  }

  ghost predicate AnnouncedBefore(nodes: seq<Node>, o: int, k: nat)
    requires k <= |nodes|
  {
    exists i :: 0 <= i < k && ExternalOf(nodes, i, o)
  }

  /** Which variables have arrays, and which of those may no longer own theirs. */
  ghost predicate DomainOk(nodes: seq<Node>, s: State, t: State, e: Owners, k: nat)
    requires k <= |nodes|
  {
    && (forall id | id in t.arrays && id > 0 :: NodeIndex(nodes, id) < k)
    && (forall id | id in e :: id in t.arrays)
    && (forall id | id in t.arrays :: id in e || ConsumedBefore(nodes, id, k))
  }

  /** The executed nodes own their meaning, unless overwritten by their only consumer. */
  ghost predicate NodesOwn(nodes: seq<Node>, ops: Ops, s: State, e: Owners, k: nat)
    requires k <= |nodes|
  {
    forall i | 0 <= i < k ::
      if nodes[i].id in e then e[nodes[i].id] == Meaning(nodes, ops, s, i)
      else ConsumedBefore(nodes, nodes[i].id, k) && !Kept(nodes, nodes[i].id)
  }

  /** The variables not consumed or announced yet own their first values. */
  ghost predicate VariablesOwn(nodes: seq<Node>, s: State, e: Owners, k: nat, lax: bool)
    requires k <= |nodes|
  {
    forall v | v in s.arrays && Unconsumed(nodes, s, v, k, lax) && !AnnouncedBefore(nodes, v, k) ::
      v in e && e[v] == Load(s, v)
  }

  ghost predicate Unconsumed(nodes: seq<Node>, s: State, v: int, k: nat, lax: bool)
    requires k <= |nodes|
  {
    !ConsumedBefore(nodes, v, k) || Shareable(lax, Load(s, v))
  }

  ghost predicate OutputsOwn(nodes: seq<Node>, ops: Ops, s: State, e: Owners, k: nat)
    requires k <= |nodes|
  {
    forall i, o | 0 <= i < k && ExternalOf(nodes, i, o) :: o in e && e[o] == Meaning(nodes, ops, s, i)
  }

  ghost predicate Flowing(nodes: seq<Node>, ops: Ops, s: State, t: State, e: Owners, k: nat, lax: bool)
    requires k <= |nodes|
  {
    && Holds(t, e, lax) && DomainOk(nodes, s, t, e, k)
    && NodesOwn(nodes, ops, s, e, k) && VariablesOwn(nodes, s, e, k, lax) && OutputsOwn(nodes, ops, s, e, k)
  }

  lemma FlowStarts(nodes: seq<Node>, ops: Ops, s: State, lax: bool)
    requires Sound(nodes, s)
    ensures Flowing(nodes, ops, s, s, FirstOwners(s), 0, lax)
  {
  }

  /** Two consumers in the list make the list longer than 1. */
  lemma TwoConsumers(nodes: seq<Node>, s: State, c: nat, k: nat)
    requires Sound(nodes, s) && c < k < |nodes| && nodes[k].input >= 0 && Consumes(nodes[c], nodes[k].input)
    ensures Kept(nodes, nodes[k].input)
  {
    var j := NodeIndex(nodes, nodes[k].input);
    assert Fed(nodes, s, c) && Fed(nodes, s, k);
    var output := nodes[j].output;
    var x :| 0 <= x < |output| && output[x] == nodes[c].id;
    var y :| 0 <= y < |output| && output[y] == nodes[k].id;
    assert x != y;
  }

  /** No external variable has two consumers, except that an empty array may when the operations keep sizes. */
  ghost predicate Unshared(nodes: seq<Node>, ops: Ops, s: State, lax: bool) {
    && (lax ==> KeepsSizes(ops))
    && forall i, j | 0 <= i < j < |nodes| && nodes[i].input < 0 && Consumes(nodes[j], nodes[i].input) ::
         Shareable(lax, Load(s, nodes[i].input))
  }

  lemma FirstToConsume(nodes: seq<Node>, ops: Ops, s: State, k: nat, lax: bool)
    requires Unshared(nodes, ops, s, lax) && k < |nodes| && nodes[k].input < 0
    ensures Unconsumed(nodes, s, nodes[k].input, k, lax)
  {
    if !Shareable(lax, Load(s, nodes[k].input)) {
      forall i | 0 <= i < k
        ensures !Consumes(nodes[i], nodes[k].input)
      {
        assert Consumes(nodes[k], nodes[i].input) <==> Consumes(nodes[i], nodes[k].input);
      }
    }
  }

  /** The next node's operand is an owner, with the value dataflow gives it. */
  lemma OperandOwned(nodes: seq<Node>, ops: Ops, s: State, t: State, e: Owners, k: nat, lax: bool)
    requires Sound(nodes, s) && Unshared(nodes, ops, s, lax) && k < |nodes| && Flowing(nodes, ops, s, t, e, k, lax)
    ensures nodes[k].input in e && Result(ops, e, nodes[k]) == Meaning(nodes, ops, s, k)
  {
    hide Holds, DomainOk, OutputsOwn, Kept;
    var n := nodes[k];
    assert Fed(nodes, s, k);
    if n.input < 0 {
      FirstToConsume(nodes, ops, s, k, lax);
      NotAnnounced(nodes, s, k);
    } else {
      var j := NodeIndex(nodes, n.input);
      if n.input !in e {
        assert nodes[j].id == n.input;
        var c :| 0 <= c < k && Consumes(nodes[c], n.input);
        TwoConsumers(nodes, s, c, k);
      }
    }
  }

  /** It has no array of its own yet, and its external outputs are free or own theirs. */
  lemma NodeFresh(nodes: seq<Node>, ops: Ops, s: State, t: State, e: Owners, k: nat, lax: bool)
    requires Sound(nodes, s) && k < |nodes| && Flowing(nodes, ops, s, t, e, k, lax)
    ensures var n := nodes[k]; n.id !in t.arrays && n.id !in e && n.id != n.input && n.id !in ExternalIds(n, n.output)
    ensures forall o | o in ExternalIds(nodes[k], nodes[k].output) :: o != nodes[k].input && (o in t.arrays ==> o in e)
  {
    hide Holds, OutputsOwn, NodesOwn, VariablesOwn;
    var n := nodes[k];
    IndexOfNode(nodes, s, k);
    assert Fed(nodes, s, k) && Apart(nodes, k);
    forall o | o in ExternalIds(n, n.output)
      ensures o < 0 && o != n.input && (o in t.arrays ==> o in e)
    {
      assert o in n.output && External(n, o);
      assert !Consumes(n, o);
      assert !ConsumedBefore(nodes, o, k);
    }
  }

  lemma SizesKept(nodes: seq<Node>, ops: Ops, s: State, lax: bool)
    requires Unshared(nodes, ops, s, lax)
    ensures lax ==> KeepsSizes(ops)
  {
  }

  lemma RemainingIs(nodes: seq<Node>, e: Owners, n: Node, lax: bool)
    ensures forall id | id in e && id != n.input :: id in Remaining(nodes, e, n, lax)
  {
  }

  lemma HoldsExecute(nodes: seq<Node>, ops: Ops, s: State, t: State, e: Owners, k: nat, lax: bool)
    requires Sane(nodes, t)
    requires Sound(nodes, s) && Unshared(nodes, ops, s, lax) && k < |nodes| && Flowing(nodes, ops, s, t, e, k, lax)
    ensures Holds(Execute(nodes, ops, t, nodes[k]), OwnersAfter(nodes, ops, e, nodes[k], lax), lax)
    ensures var t' := Execute(nodes, ops, t, nodes[k]); var n := nodes[k];
      forall id | id in t'.arrays :: id in t.arrays || id == n.id || id in ExternalIds(n, n.output)
  {
    hide Kept, Holds, DomainOk, NodesOwn, VariablesOwn, OutputsOwn, Sane, IsOutput, Compute, Remaining, Result, Sound,
      Unshared;
    var n := nodes[k];
    RemainingIs(nodes, e, n, lax);
    assert lax ==> KeepsSizes(ops) by { SizesKept(nodes, ops, s, lax); }
    OperandOwned(nodes, ops, s, t, e, k, lax);
    HoldsPresent(t, e, lax);
    NodeFresh(nodes, ops, s, t, e, k, lax);
    NotOutput(nodes, s, k);
    HoldsCompute(nodes, ops, t, e, n, lax);
    ComputeSane(nodes, ops, t, n);
    var w := Result(ops, e, n);
    HoldsAnnounce(nodes, Compute(nodes, ops, t, n), Remaining(nodes, e, n, lax)[n.id := w], ExternalIds(n, n.output),
      n.id, w, lax);
  }

  /** Who owns what after a node. */
  predicate StillOwned(nodes: seq<Node>, e: Owners, n: Node, id: int, lax: bool) {
    id in e && (id == n.input ==> Kept(nodes, id) || Shareable(lax, e[id]))
  }

  lemma OwnersAre(nodes: seq<Node>, ops: Ops, e: Owners, n: Node, lax: bool)
    ensures var e', outs, w := OwnersAfter(nodes, ops, e, n, lax), ExternalIds(n, n.output), Result(ops, e, n);
      && (forall id :: id in e' <==> id in outs || id == n.id || StillOwned(nodes, e, n, id, lax))
      && (forall id | id in e' :: e'[id] == if id in outs || id == n.id then w else e[id])
  {
    var w := Result(ops, e, n);
    AnnouncedIs(Remaining(nodes, e, n, lax)[n.id := w], ExternalIds(n, n.output), w);
  }

  lemma ConsumedLater(nodes: seq<Node>, id: int, k: nat)
    requires k < |nodes|
    ensures ConsumedBefore(nodes, id, k + 1) <==> ConsumedBefore(nodes, id, k) || Consumes(nodes[k], id)
  {
    if Consumes(nodes[k], id) { assert 0 <= k < k + 1; }
  }

  lemma Ids(nodes: seq<Node>, s: State, k: nat)
    requires Sound(nodes, s) && k < |nodes|
    ensures forall i | 0 <= i <= k :: nodes[i].id > 0 && (i < k ==> nodes[i].id != nodes[k].id)
    ensures forall o | o in ExternalIds(nodes[k], nodes[k].output) :: o < 0
  {
    forall o | o in ExternalIds(nodes[k], nodes[k].output)
      ensures o < 0
    {
      assert Apart(nodes, k);
    }
  }

  lemma HoldsPresent(t: State, e: Owners, lax: bool)
    requires Holds(t, e, lax)
    ensures forall id | id in e :: id in t.arrays
  {
  }

  lemma DomainStep(nodes: seq<Node>, ops: Ops, s: State, t: State, e: Owners, k: nat, lax: bool)
    requires Sane(nodes, t)
    requires Sound(nodes, s) && Unshared(nodes, ops, s, lax) && k < |nodes| && Flowing(nodes, ops, s, t, e, k, lax)
    ensures DomainOk(nodes, s, Execute(nodes, ops, t, nodes[k]), OwnersAfter(nodes, ops, e, nodes[k], lax), k + 1)
  {
    hide Sound, Unshared, Holds, Execute, OwnersAfter, NodesOwn, VariablesOwn, OutputsOwn, Kept, ConsumedBefore, Result;
    HoldsExecute(nodes, ops, s, t, e, k, lax);
    HoldsPresent(Execute(nodes, ops, t, nodes[k]), OwnersAfter(nodes, ops, e, nodes[k], lax), lax);
    OwnersAre(nodes, ops, e, nodes[k], lax);
    IndexOfNode(nodes, s, k);
    Ids(nodes, s, k);
    var n, t', e' := nodes[k], Execute(nodes, ops, t, nodes[k]), OwnersAfter(nodes, ops, e, nodes[k], lax);
    forall id | id in t'.arrays
      ensures id in e' || ConsumedBefore(nodes, id, k + 1)
    {
      ConsumedLater(nodes, id, k);
    }
  }

  lemma NodesStep(nodes: seq<Node>, ops: Ops, s: State, t: State, e: Owners, k: nat, lax: bool)
    requires Sound(nodes, s) && Unshared(nodes, ops, s, lax) && k < |nodes| && Flowing(nodes, ops, s, t, e, k, lax)
    ensures NodesOwn(nodes, ops, s, OwnersAfter(nodes, ops, e, nodes[k], lax), k + 1)
  {
    hide Sound, Unshared, Flowing, OwnersAfter, Kept, ConsumedBefore, Meaning, Result;
    var e' := OwnersAfter(nodes, ops, e, nodes[k], lax);
    OperandOwned(nodes, ops, s, t, e, k, lax);
    OwnersAre(nodes, ops, e, nodes[k], lax);
    Ids(nodes, s, k);
    Parts(nodes, ops, s, t, e, k, lax);
    forall i | 0 <= i < k + 1
      ensures if nodes[i].id in e' then e'[nodes[i].id] == Meaning(nodes, ops, s, i)
              else ConsumedBefore(nodes, nodes[i].id, k + 1) && !Kept(nodes, nodes[i].id)
    {
      ConsumedLater(nodes, nodes[i].id, k);
    }
  }

  lemma Parts(nodes: seq<Node>, ops: Ops, s: State, t: State, e: Owners, k: nat, lax: bool)
    requires k <= |nodes| && Flowing(nodes, ops, s, t, e, k, lax)
    ensures NodesOwn(nodes, ops, s, e, k) && VariablesOwn(nodes, s, e, k, lax) && OutputsOwn(nodes, ops, s, e, k)
  {
  }

  lemma VariablesStep(nodes: seq<Node>, ops: Ops, s: State, t: State, e: Owners, k: nat, lax: bool)
    requires Sound(nodes, s) && k < |nodes| && Flowing(nodes, ops, s, t, e, k, lax)
    ensures VariablesOwn(nodes, s, OwnersAfter(nodes, ops, e, nodes[k], lax), k + 1, lax)
  {
    OwnersAre(nodes, ops, e, nodes[k], lax);
    Parts(nodes, ops, s, t, e, k, lax);
    hide Flowing, OwnersAfter, Kept, ConsumedBefore, AnnouncedBefore, Result;
    var e', n := OwnersAfter(nodes, ops, e, nodes[k], lax), nodes[k];
    forall v | v in s.arrays && Unconsumed(nodes, s, v, k + 1, lax) && !AnnouncedBefore(nodes, v, k + 1)
      ensures v in e' && e'[v] == Load(s, v)
    {
      ConsumedLater(nodes, v, k);
      AnnouncedLater(nodes, v, k);
      assert v < 0 && n.id > 0;
    }
  }

  lemma AnnouncedLater(nodes: seq<Node>, o: int, k: nat)
    requires k < |nodes|
    ensures AnnouncedBefore(nodes, o, k + 1) <==>
      AnnouncedBefore(nodes, o, k) || o in ExternalIds(nodes[k], nodes[k].output)
  {
    if ExternalOf(nodes, k, o) { assert 0 <= k < k + 1; }
  }

  lemma OutputsStep(nodes: seq<Node>, ops: Ops, s: State, t: State, e: Owners, k: nat, lax: bool)
    requires Sound(nodes, s) && Unshared(nodes, ops, s, lax) && k < |nodes| && Flowing(nodes, ops, s, t, e, k, lax)
    ensures OutputsOwn(nodes, ops, s, OwnersAfter(nodes, ops, e, nodes[k], lax), k + 1)
  {
    OperandOwned(nodes, ops, s, t, e, k, lax);
    OwnersAre(nodes, ops, e, nodes[k], lax);
    Parts(nodes, ops, s, t, e, k, lax);
    hide Flowing, OwnersAfter, Kept, Meaning, Result;
    var e', n := OwnersAfter(nodes, ops, e, nodes[k], lax), nodes[k];
    forall i, o | 0 <= i < k + 1 && ExternalOf(nodes, i, o)
      ensures o in e' && e'[o] == Meaning(nodes, ops, s, i)
    {
      assert Apart(nodes, i) && !Consumes(nodes[k], o) && o < 0 && n.id > 0;
      if i < k {
        assert !(o in nodes[k].output && External(nodes[k], o));
      }
    }
  }

  lemma FlowStep(nodes: seq<Node>, ops: Ops, s: State, t: State, e: Owners, k: nat, lax: bool)
    requires Sane(nodes, t)
    requires Sound(nodes, s) && Unshared(nodes, ops, s, lax) && k < |nodes| && Flowing(nodes, ops, s, t, e, k, lax)
    ensures Flowing(nodes, ops, s, Execute(nodes, ops, t, nodes[k]), OwnersAfter(nodes, ops, e, nodes[k], lax), k + 1,
      lax)
  {
    HoldsExecute(nodes, ops, s, t, e, k, lax);
    DomainStep(nodes, ops, s, t, e, k, lax);
    NodesStep(nodes, ops, s, t, e, k, lax);
    VariablesStep(nodes, ops, s, t, e, k, lax);
    OutputsStep(nodes, ops, s, t, e, k, lax);
    hide Holds, DomainOk, NodesOwn, VariablesOwn, OutputsOwn, Execute, OwnersAfter;
  }

  lemma {:induction false} FlowAll(nodes: seq<Node>, ops: Ops, s: State, k: nat, lax: bool)
    requires Sound(nodes, s) && Unshared(nodes, ops, s, lax) && k <= |nodes|
    ensures Flowing(nodes, ops, s, ExecuteAll(nodes, ops, s, k), OwnersAll(nodes, ops, FirstOwners(s), k, lax), k, lax)
  {
    hide Flowing, Execute, OwnersAfter, Sound, Unshared;
    if k == 0 {
      FlowStarts(nodes, ops, s, lax);
    } else {
      FlowAll(nodes, ops, s, k - 1, lax);
      RunSane(nodes, ops, s, k - 1);
      var t, e := ExecuteAll(nodes, ops, s, k - 1), OwnersAll(nodes, ops, FirstOwners(s), k - 1, lax);
      FlowStep(nodes, ops, s, t, e, k - 1, lax);
    }
  }

  lemma FlowIsCorrect(nodes: seq<Node>, ops: Ops, s: State, lax: bool)
    requires Sound(nodes, s) && Unshared(nodes, ops, s, lax)
    ensures Correct(nodes, ops, s, ExecuteAll(nodes, ops, s, |nodes|))
  {
    FlowAll(nodes, ops, s, |nodes|, lax);
    var t, e := ExecuteAll(nodes, ops, s, |nodes|), OwnersAll(nodes, ops, FirstOwners(s), |nodes|, lax);
    hide ExecuteAll, OwnersAll, Meaning;
    forall i | 0 <= i < |nodes| && Leaf(nodes, i)
      ensures Load(t, nodes[i].id) == Meaning(nodes, ops, s, i)
    {
      assert nodes[i].id in e;
    }
    forall i, o | 0 <= i < |nodes| && nodes[i].hasExternalOutputs && o in nodes[i].output && o < 0
      ensures Load(t, o) == Meaning(nodes, ops, s, i)
    {
      assert ExternalOf(nodes, i, o);
    }
  }

  /** With at most one consumer of every external variable, buffer reuse is invisible: every leaf and every external
      output ends with the composition of the operations on its path. */
  lemma ReuseIsDataflow(nodes: seq<Node>, ops: Ops, s: State)
    requires Sound(nodes, s) && SoleConsumers(nodes)
    ensures Correct(nodes, ops, s, ExecuteAll(nodes, ops, s, |nodes|))
  {
    FlowIsCorrect(nodes, ops, s, false);
  }

  // ----- the condition is exact for element-wise operations

  /** Operations that act on each element alone. */
  function Pointwise(kernel: (nat, real) -> real): Ops {
    Ops((op: nat, x: Value) => seq(|x|, i requires 0 <= i < |x| => kernel(op, x[i])))
  }

  /** No external variable with a non-empty array has two consumers. */
  predicate SoleContents(nodes: seq<Node>, s: State) {
    forall i, j | 0 <= i < j < |nodes| && nodes[i].input < 0 && Consumes(nodes[j], nodes[i].input) ::
      Load(s, nodes[i].input) == []
  }

  function Raised(v: Value): (w: Value)
    ensures |w| == |v|
  {
    seq(|v|, i requires 0 <= i < |v| => v[i] + 1.0)
  }

  function AddOne(): (nat, real) -> real {
    (op, x) => x + 1.0
  }

  /** Every operation adds 1 to every element. */
  function Adding(): Ops {
    Pointwise(AddOne())
  }

  lemma AddingRaises(op: nat, v: Value)
    ensures Adding().apply(op, v) == Raised(v)
  {
  }

  function Head(v: Value): real {
    if v == [] then 0.0 else v[0]
  }

  /** Variables other than external outputs keep their sizes from t to t', and their first elements do not decrease. */
  ghost predicate Climbing(nodes: seq<Node>, t: State, t': State) {
    forall id | id in t.arrays && !IsOutput(nodes, id) ::
      id in t'.arrays && |Load(t', id)| == |Load(t, id)| && Head(Load(t', id)) >= Head(Load(t, id))
  }

  lemma ComputeClimbs(nodes: seq<Node>, t: State, n: Node)
    requires Sane(nodes, t) && n.input in t.arrays && n.id !in t.arrays
    ensures var t' := Compute(nodes, Adding(), t, n);
      && Climbing(nodes, t, t') && n.id in t'.arrays
      && Load(t', n.id) == Raised(Load(t, n.input))
      && (!Kept(nodes, n.input) ==> Load(t', n.input) == Raised(Load(t, n.input)))
  {
    hide Kept, IsOutput, Adding;
    AddingRaises(n.op, Load(t, n.input));
  }

  lemma StepClimbs(nodes: seq<Node>, s: State, t: State, k: nat)
    requires Sound(nodes, s) && k < |nodes| && Sane(nodes, t) && Present(nodes, s, t, k)
    ensures var t', n := Execute(nodes, Adding(), t, nodes[k]), nodes[k];
      && Climbing(nodes, t, t')
      && n.input in t.arrays && n.input in t'.arrays
      && Load(t', n.id) == Raised(Load(t, n.input))
      && (!Kept(nodes, n.input) ==> Load(t', n.input) == Raised(Load(t, n.input)))
  {
    hide Kept, IsOutput, Sane, Compute, Load, Adding, Raised, Head;
    var n := nodes[k];
    Ready(nodes, s, t, k);
    NotOutput(nodes, s, k);
    ComputeSane(nodes, Adding(), t, n);
    ComputeClimbs(nodes, t, n);
    AnnounceAllKeeps(nodes, Compute(nodes, Adding(), t, n), ExternalIds(n, n.output), n.id);
  }

  lemma {:induction false} RunClimbs(nodes: seq<Node>, s: State, k: nat, m: nat, id: int)
    requires Sound(nodes, s) && k <= m <= |nodes| && !IsOutput(nodes, id)
      && id in ExecuteAll(nodes, Adding(), s, k).arrays
    ensures id in ExecuteAll(nodes, Adding(), s, m).arrays
    ensures |Load(ExecuteAll(nodes, Adding(), s, m), id)| == |Load(ExecuteAll(nodes, Adding(), s, k), id)|
    ensures Head(Load(ExecuteAll(nodes, Adding(), s, m), id)) >= Head(Load(ExecuteAll(nodes, Adding(), s, k), id))
  {
    hide Sound, IsOutput, Load, Execute, Head, Adding, Raised;
    if k < m {
      RunClimbs(nodes, s, k, m - 1, id);
      RunSane(nodes, Adding(), s, m - 1);
      StepClimbs(nodes, s, ExecuteAll(nodes, Adding(), s, m - 1), m - 1);
    }
  }

  /** After k nodes the first element of node i's array is greater than its meaning. */
  predicate TooGreat(nodes: seq<Node>, s: State, i: nat, k: nat)
    requires i < |nodes| && k <= |nodes|
  {
    var v, m := Load(ExecuteAll(nodes, Adding(), s, k), nodes[i].id), Meaning(nodes, Adding(), s, i);
    v != [] && m != [] && Head(v) > Head(m)
  }

  lemma RaisedHead(v: Value)
    ensures v != [] ==> Raised(v) != [] && Head(Raised(v)) == Head(v) + 1.0
  {
  }

  lemma NotEmpty(v: Value, w: Value)
    requires |v| == |w| && w != []
    ensures v != []
  {
  }

  /** The meaning of a node that reads an external variable, or another node. */
  lemma MeaningRaised(nodes: seq<Node>, s: State, i: nat)
    requires Sound(nodes, s) && i < |nodes|
    ensures nodes[i].input < 0 ==> Meaning(nodes, Adding(), s, i) == Raised(Load(s, nodes[i].input))
    ensures nodes[i].input >= 0 ==>
      NodeIndex(nodes, nodes[i].input) < i
      && Meaning(nodes, Adding(), s, i) == Raised(Meaning(nodes, Adding(), s, NodeIndex(nodes, nodes[i].input)))
  {
    hide Adding;
    FedAt(nodes, s, i);
    var n := nodes[i];
    if n.input < 0 {
      AddingRaises(n.op, Load(s, n.input));
    } else {
      AddingRaises(n.op, Meaning(nodes, Adding(), s, NodeIndex(nodes, n.input)));
    }
  }

  /** The second consumer of an external variable with contents reads what the first has written. */
  lemma SecondConsumer(nodes: seq<Node>, s: State, i: nat, j: nat)
    requires Sound(nodes, s) && i < j < |nodes| && nodes[i].input < 0 && Consumes(nodes[j], nodes[i].input)
    requires Load(s, nodes[i].input) != []
    ensures TooGreat(nodes, s, j, j + 1)
  {
    hide Sound, IsOutput, Load, Execute, Sane, Kept, Head, Adding, Raised, Meaning, Climbing;
    var v := nodes[i].input;
    NegativeNotKept(nodes, v);
    NotOutput(nodes, s, i);
    RunSane(nodes, Adding(), s, i);
    RunSane(nodes, Adding(), s, j);
    var t, t' := ExecuteAll(nodes, Adding(), s, i), ExecuteAll(nodes, Adding(), s, i + 1);
    var u := ExecuteAll(nodes, Adding(), s, j);
    InputPresent(nodes, s, t, i);
    RunClimbs(nodes, s, 0, i, v);
    StepClimbs(nodes, s, t, i);
    RunClimbs(nodes, s, i + 1, j, v);
    StepClimbs(nodes, s, u, j);
    MeaningRaised(nodes, s, j);
    NotEmpty(Load(t, v), Load(s, v));
    RaisedHead(Load(t, v));
    NotEmpty(Load(u, v), Load(t', v));
    RaisedHead(Load(u, v));
    RaisedHead(Load(s, v));
  }

  lemma NegativeNotKept(nodes: seq<Node>, v: int)
    requires v < 0
    ensures !Kept(nodes, v)
  {
  }

  lemma InputPresent(nodes: seq<Node>, s: State, t: State, i: nat)
    requires Sound(nodes, s) && i < |nodes| && nodes[i].input < 0
    ensures nodes[i].input in s.arrays
  {
    assert Fed(nodes, s, i);
  }

  lemma FedAt(nodes: seq<Node>, s: State, i: nat)
    requires Sound(nodes, s) && i < |nodes|
    ensures nodes[i].id > 0 && Fed(nodes, s, i)
  {
  }

  /** The value computed from one that is too great is too great. */
  lemma ConsumerTooGreat(nodes: seq<Node>, s: State, i: nat, c: nat)
    requires Sound(nodes, s) && i < |nodes| && TooGreat(nodes, s, i, i + 1) && c < |nodes|
      && Consumes(nodes[c], nodes[i].id)
    ensures i < c && TooGreat(nodes, s, c, c + 1)
  {
    hide Sound, IsOutput, Load, Execute, Sane, Kept, Head, Adding, Raised, Meaning, Climbing;
    FedAt(nodes, s, i);
    IndexOfNode(nodes, s, i);
    MeaningRaised(nodes, s, c);
    NotOutput(nodes, s, i);
    RunSane(nodes, Adding(), s, i + 1);
    RunClimbs(nodes, s, i + 1, c, nodes[i].id);
    RunSane(nodes, Adding(), s, c);
    var t := ExecuteAll(nodes, Adding(), s, c);
    StepClimbs(nodes, s, t, c);
    NotEmpty(Load(t, nodes[i].id), Load(ExecuteAll(nodes, Adding(), s, i + 1), nodes[i].id));
    RaisedHead(Load(t, nodes[i].id));
    RaisedHead(Meaning(nodes, Adding(), s, i));
  }

  lemma StaysTooGreat(nodes: seq<Node>, s: State, i: nat)
    requires Sound(nodes, s) && i < |nodes| && TooGreat(nodes, s, i, i + 1)
    ensures TooGreat(nodes, s, i, |nodes|)
  {
    hide IsOutput, Load, Execute, Sane, Head, Adding, Meaning;
    NotOutput(nodes, s, i);
    RunSane(nodes, Adding(), s, i + 1);
    RunClimbs(nodes, s, i + 1, |nodes|, nodes[i].id);
    NotEmpty(Load(ExecuteAll(nodes, Adding(), s, |nodes|), nodes[i].id),
      Load(ExecuteAll(nodes, Adding(), s, i + 1), nodes[i].id));
  }

  /** So there is a leaf that is too great in the end. */
  lemma {:induction false} LeafTooGreat(nodes: seq<Node>, s: State, i: nat) returns (l: nat)
    requires Sound(nodes, s) && i < |nodes| && TooGreat(nodes, s, i, i + 1)
    ensures l < |nodes| && Leaf(nodes, l) && TooGreat(nodes, s, l, |nodes|)
    decreases |nodes| - i
  {
    hide TooGreat, Sound;
    if Leaf(nodes, i) {
      StaysTooGreat(nodes, s, i);
      l := i;
    } else {
      var c :| 0 <= c < |nodes| && Consumes(nodes[c], nodes[i].id);
      ConsumerTooGreat(nodes, s, i, c);
      l := LeafTooGreat(nodes, s, c);
    }
  }

  /** For element-wise operations buffer reuse is invisible, whatever they compute, exactly if no external variable
      with a non-empty array has two consumers. */
  lemma ReuseIffSoleContents(nodes: seq<Node>, s: State)
    requires Sound(nodes, s)
    ensures (forall kernel :: Correct(nodes, Pointwise(kernel), s, ExecuteAll(nodes, Pointwise(kernel), s, |nodes|)))
            <==> SoleContents(nodes, s)
  {
    hide Sound, Correct, ExecuteAll, Load, Pointwise;
    if SoleContents(nodes, s) {
      forall kernel
        ensures Correct(nodes, Pointwise(kernel), s, ExecuteAll(nodes, Pointwise(kernel), s, |nodes|))
      {
        PointwiseUnshared(nodes, kernel, s);
        FlowIsCorrect(nodes, Pointwise(kernel), s, true);
      }
    } else {
      var i, j :| 0 <= i < j < |nodes| && nodes[i].input < 0 && Consumes(nodes[j], nodes[i].input)
        && Load(s, nodes[i].input) != [];
      NotCorrect(nodes, s, i, j);
    }
  }

  lemma PointwiseUnshared(nodes: seq<Node>, kernel: (nat, real) -> real, s: State)
    requires SoleContents(nodes, s)
    ensures Unshared(nodes, Pointwise(kernel), s, true)
  {
    hide Load;
  }

  lemma NotCorrect(nodes: seq<Node>, s: State, i: nat, j: nat)
    requires Sound(nodes, s) && i < j < |nodes| && nodes[i].input < 0 && Consumes(nodes[j], nodes[i].input)
    requires Load(s, nodes[i].input) != []
    ensures exists kernel :: !Correct(nodes, Pointwise(kernel), s, ExecuteAll(nodes, Pointwise(kernel), s, |nodes|))
  {
    hide Pointwise, Sound, Load, Meaning, Execute;
    SecondConsumer(nodes, s, i, j);
    var l := LeafTooGreat(nodes, s, j);
    assert Load(ExecuteAll(nodes, Adding(), s, |nodes|), nodes[l].id) != Meaning(nodes, Adding(), s, l);
    assert !Correct(nodes, Pointwise(AddOne()), s, ExecuteAll(nodes, Pointwise(AddOne()), s, |nodes|));
  }

  // ----- layers

  /** The order of execution: layer by layer. */
  function Flat(onion: seq<seq<Node>>): seq<Node> {
    if onion == [] then [] else Flat(onion[..|onion| - 1]) + onion[|onion| - 1]
  }

  /** Every node's operand is an external variable or a node of an earlier layer that lists it. */
  predicate Layered(onion: seq<seq<Node>>, s: State) {
    forall l, n | 0 <= l < |onion| && n in onion[l] :: FedFrom(Flat(onion[..l]), s, n)
  }

  predicate FedFrom(earlier: seq<Node>, s: State, n: Node) {
    if n.input < 0 then n.input in s.arrays
    else NodeIndex(earlier, n.input) < |earlier| && n.id in earlier[NodeIndex(earlier, n.input)].output
  }

  lemma {:induction false} IndexOfAppend(a: seq<Node>, b: seq<Node>, id: int)
    requires NodeIndex(a, id) < |a|
    ensures NodeIndex(a + b, id) == NodeIndex(a, id)
  {
    if a[0].id != id {
      assert (a + b)[1..] == a[1..] + b;
      IndexOfAppend(a[1..], b, id);
    }
  }

  /** Earlier layers come first. */
  lemma {:induction false} LayeredFeeds(onion: seq<seq<Node>>, s: State)
    requires Layered(onion, s)
    ensures forall i | 0 <= i < |Flat(onion)| :: Fed(Flat(onion), s, i)
  {
    if onion != [] {
      var init, last := onion[..|onion| - 1], onion[|onion| - 1];
      forall l, n | 0 <= l < |init| && n in init[l]
        ensures FedFrom(Flat(init[..l]), s, n)
      {
        assert init[..l] == onion[..l] && n in onion[l];
      }
      LayeredFeeds(init, s);
      var a, nodes := Flat(init), Flat(onion);
      forall i | 0 <= i < |nodes|
        ensures Fed(nodes, s, i)
      {
        if i < |a| {
          assert Fed(a, s, i) && nodes[i] == a[i];
          if a[i].input >= 0 { IndexOfAppend(a, last, a[i].input); }
        } else {
          assert nodes[i] == last[i - |a|] && nodes[i] in onion[|onion| - 1];
          assert FedFrom(a, s, nodes[i]);
          if nodes[i].input >= 0 { IndexOfAppend(a, last, nodes[i].input); }
        }
      }
    }
  }
}
