/** The executor itself: executeFlatNode (TRANSFORM and SCALAR with one input) and execute in
    blas/cpu/GraphExecutioner.cpp, proved to take the steps of GraphModel.dfy on its variables. */
module GraphExecution {
  import opened GraphModel

  class VariableSpace {
    /** The variables that exist, the addresses of the arrays of those that have one, and the buffers. */
    const declared: set<int>
    var arrays: map<int, nat>
    var memory: seq<Value>

    function State(): State
      reads this
    {
      GraphModel.State.State(arrays, memory)
    }

    constructor (declared: set<int>, arrays: map<int, nat>, memory: seq<Value>)
      ensures this.declared == declared && this.arrays == arrays && this.memory == memory
    {
      this.declared, this.arrays, this.memory := declared, arrays, memory;
    }

    /** A new array with the contents of another one: the copy constructor, and dup. */
    method Duplicate(id: int, from: nat)
      requires from < |memory|
      modifies this
      ensures State() == Allocate(old(State()), id, old(memory[from]))
    {
      arrays := arrays[id := |memory|];
      memory := memory + [memory[from]];
    }

    /** Exec of the operation: reads one buffer, writes one, possibly the same. */
    method Exec(ops: Ops, op: nat, x: nat, z: nat)
      requires x < |memory| && z < |memory|
      modifies this`memory
      ensures memory == old(memory)[z := ops.apply(op, old(memory)[x])]
    {
      memory := memory[z := ops.apply(op, memory[x])];
    }

    /** The output array of a node. */
    method PrepareOutput(nodes: seq<Node>, n: Node)
      requires n.input in arrays && arrays[n.input] < |memory|
      requires n.input > 0 ==> NodeIndex(nodes, n.input) < |nodes|
      modifies this
      ensures State() == Prepare(nodes, old(State()), n)
    {
      var x := arrays[n.input];
      match n.opType
      case Transform =>
        // several consumers: this node gets its own copy
        if n.input > 0 {
          if |nodes[NodeIndex(nodes, n.input)].output| > 1 {
            if n.id !in arrays {
              Duplicate(n.id, x);
            }
          }
        }
        // the only consumer takes the array over
        if n.id !in arrays {
          arrays := arrays[n.id := x];
        }
      case Scalar =>
        if n.input > 0 {
          if |nodes[NodeIndex(nodes, n.input)].output| > 1 {
            Duplicate(n.id, x);
          }
        }
        if n.id !in arrays {
          arrays := arrays[n.id := x];
        }
    }

    /** One external output: a duplicate if it is empty, otherwise an assignment. */
    method AnnounceOne(o: int, id: int)
      requires id in arrays && forall x | x in arrays :: arrays[x] < |memory|
      modifies this
      ensures State() == Announce(old(State()), o, id)
      ensures id in arrays && forall x | x in arrays :: arrays[x] < |memory|
      ensures o in arrays && memory[arrays[o]] == old(memory[arrays[id]])
      ensures forall x | x in old(arrays) && old(memory[arrays[x]] == memory[arrays[id]]) ::
        x in arrays && memory[arrays[x]] == old(memory[arrays[id]])
    {
      if o !in arrays {
        Duplicate(o, arrays[id]);
      } else {
        // the external array receives the elements
        if arrays[o] != arrays[id] {
          memory := memory[arrays[o] := memory[arrays[id]]];
        }
      }
    }

    /** All external outputs of the node exist; for SCALAR 0 is one of them. */
    predicate Announceable(n: Node) {
      n.hasExternalOutputs ==>
        forall o | o in n.output && (o < 0 || (o == 0 && n.opType.Scalar?)) :: o in declared
    }

    /** The loop over the outputs; false if an external output does not exist. */
    method AnnounceOutputs(n: Node) returns (ok: bool)
      requires n.id in arrays && forall x | x in arrays :: arrays[x] < |memory|
      requires n.hasExternalOutputs
      modifies this
      ensures ok <==> Announceable(n)
      ensures ok ==> State() == AnnounceAll(old(State()), ExternalIds(n, n.output), n.id)
      ensures n.id in arrays && forall x | x in arrays :: arrays[x] < |memory|
      ensures memory[arrays[n.id]] == old(memory[arrays[n.id]])
      ensures ok ==> forall o | o in n.output && (o < 0 || (o == 0 && n.opType.Scalar?)) ::
        o in arrays && memory[arrays[o]] == old(memory[arrays[n.id]])
    {
      hide Announce, AnnounceAll, ExternalIds;
      ghost var t := State();
      NoOutput(t, n);
      var e := 0;
      while e < |n.output|
        invariant 0 <= e <= |n.output| && State() == AnnounceAll(t, ExternalIds(n, n.output[..e]), n.id)
        invariant n.id in arrays && forall x | x in arrays :: arrays[x] < |memory|
        invariant forall o | o in n.output[..e] && (o < 0 || (o == 0 && n.opType.Scalar?)) ::
          o in declared && o in arrays && memory[arrays[o]] == old(memory[arrays[n.id]])
        invariant memory[arrays[n.id]] == old(memory[arrays[n.id]])
      {
        NextOutput(t, n, e);
        var o := n.output[e];
        var skip := if n.opType.Transform? then o >= 0 else o > 0;
        if !skip {
          if o !in declared {
            return false;
          }
          AnnounceOne(o, n.id);
        }
        e := e + 1;
      }
      assert n.output[..|n.output|] == n.output;
      ok := true;
    }

    /** False if an external output does not exist. */
    method ExecuteFlatNode(nodes: seq<Node>, ops: Ops, n: Node) returns (ok: bool)
      requires n.input in arrays && forall x | x in arrays :: arrays[x] < |memory|
      requires n.input > 0 ==> NodeIndex(nodes, n.input) < |nodes|
      modifies this
      ensures ok <==> Announceable(n)
      ensures ok ==> State() == GraphModel.Execute(nodes, ops, old(State()), n)
      ensures n.id in arrays && forall x | x in arrays :: arrays[x] < |memory|
      ensures memory[arrays[n.id]] == ops.apply(n.op, old(memory[arrays[n.input]]))
      ensures ok && n.hasExternalOutputs ==> forall o | o in n.output && (o < 0 || (o == 0 && n.opType.Scalar?)) ::
        o in arrays && memory[arrays[o]] == memory[arrays[n.id]]
    {
      hide Kept, AnnounceAll, ExternalIds;
      var x := arrays[n.input];
      PrepareOutput(nodes, n);
      Exec(ops, n.op, x, arrays[n.id]);
      assert State() == Compute(nodes, ops, old(State()), n);
      if n.hasExternalOutputs {
        ok := AnnounceOutputs(n);
      } else {
        NoExternals(State(), n, n.output);
        ok := true;
      }
    }

    /** All layers; false if an external output does not exist. For a sound graph in which no external variable has two
        consumers, every leaf and every external output ends with its meaning. */
    method Execute(onion: seq<seq<Node>>, ops: Ops) returns (ok: bool)
      requires Sound(Flat(onion), State())
      modifies this
      ensures ok <==> forall n | n in Flat(onion) :: Announceable(n)
      ensures ok ==> State() == ExecuteAll(Flat(onion), ops, old(State()), |Flat(onion)|)
      ensures ok && SoleConsumers(Flat(onion)) ==> Correct(Flat(onion), ops, old(State()), State())
    {
      hide Sound, Sane, Present, Correct, SoleConsumers, GraphModel.Execute, Announceable;
      ghost var s := State();
      ghost var nodes := Flat(onion);
      var mapped := Flat(onion);
      FlatPrefix(onion, 0);
      for l := 0 to |onion|
        invariant Before(onion, l) <= |nodes| && forall i | 0 <= i < Before(onion, l) :: Announceable(nodes[i])
        invariant State() == ExecuteAll(nodes, ops, s, Before(onion, l))
      {
        var layerSize := |onion[l]|;
        BeforeNext(onion, l);
        FlatPrefix(onion, l + 1);
        for n := 0 to layerSize
          invariant Before(onion, l) + n <= |nodes|
          invariant forall i | 0 <= i < Before(onion, l) + n :: Announceable(nodes[i])
          invariant State() == ExecuteAll(nodes, ops, s, Before(onion, l) + n)
        {
          var node := onion[l][n];
          ghost var k := Before(onion, l) + n;
          NodeAt(onion, l, n);
          RunSane(nodes, ops, s, k);
          NodeReady(nodes, ops, s, State(), k);
          ok := ExecuteFlatNode(mapped, ops, node);
          if !ok {
            assert node in nodes;
            return;
          }
        }
      }
      BeforeAll(onion);
      if SoleConsumers(nodes) { ReuseIsDataflow(nodes, ops, s); }
      ok := true;
    }
  }

  lemma {:induction false} NoExternals(s: State, n: Node, outs: seq<int>)
    requires !n.hasExternalOutputs
    ensures AnnounceAll(s, ExternalIds(n, outs), n.id) == s
  {
    if outs != [] { NoExternals(s, n, outs[..|outs| - 1]); }
  }

  lemma NoOutput(s: State, n: Node)
    ensures AnnounceAll(s, ExternalIds(n, n.output[..0]), n.id) == s
  {
  }

  lemma NextOutput(s: State, n: Node, e: nat)
    requires e < |n.output|
    ensures AnnounceAll(s, ExternalIds(n, n.output[..e + 1]), n.id)
         == var t := AnnounceAll(s, ExternalIds(n, n.output[..e]), n.id);
            if External(n, n.output[e]) then Announce(t, n.output[e], n.id) else t
    ensures n.output[..e + 1] == n.output[..e] + [n.output[e]]
  {
    assert n.output[..e + 1][..e] == n.output[..e];
    var ids := ExternalIds(n, n.output[..e]);
    assert (ids + [n.output[e]])[..|ids|] == ids;
  }

  lemma NodeReady(nodes: seq<Node>, ops: Ops, s: State, t: State, k: nat)
    requires Sound(nodes, s) && k < |nodes| && Sane(nodes, t) && Present(nodes, s, t, k)
    ensures nodes[k].input in t.arrays && nodes[k].id !in t.arrays
    ensures forall x | x in t.arrays :: t.arrays[x] < |t.memory|
    ensures nodes[k].input > 0 ==> NodeIndex(nodes, nodes[k].input) < |nodes|
  {
    Ready(nodes, s, t, k);
    assert Fed(nodes, s, k);
  }

  /** The number of nodes in the layers before l. */
  function Before(onion: seq<seq<Node>>, l: nat): (k: nat)
    requires l <= |onion|
  {
    |Flat(onion[..l])|
  }

  lemma {:induction false} FlatPrefix(onion: seq<seq<Node>>, l: nat)
    requires l <= |onion|
    ensures Before(onion, l) <= |Flat(onion)| && Flat(onion)[..Before(onion, l)] == Flat(onion[..l])
  {
    if l == |onion| {
      assert onion[..l] == onion;
    } else {
      var init := onion[..|onion| - 1];
      FlatPrefix(init, l);
      assert init[..l] == onion[..l];
    }
  }

  lemma BeforeNext(onion: seq<seq<Node>>, l: nat)
    requires l < |onion|
    ensures Before(onion, l + 1) == Before(onion, l) + |onion[l]|
  {
    assert onion[..l + 1][..l] == onion[..l];
  }

  lemma BeforeAll(onion: seq<seq<Node>>)
    ensures Before(onion, |onion|) == |Flat(onion)|
  {
    assert onion[..|onion|] == onion;
  }

  lemma NodeAt(onion: seq<seq<Node>>, l: nat, n: nat)
    requires l < |onion| && n < |onion[l]|
    ensures Before(onion, l) + n < |Flat(onion)| && Flat(onion)[Before(onion, l) + n] == onion[l][n]
  {
    FlatPrefix(onion, l + 1);
    BeforeNext(onion, l);
    assert onion[..l + 1][..l] == onion[..l];
    assert Flat(onion[..l + 1]) == Flat(onion[..l]) + onion[l];
    assert Flat(onion)[..Before(onion, l + 1)][Before(onion, l) + n] == onion[l][n];
  }
}
