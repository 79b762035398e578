/** The steps of lowering one operator, each for every choice of kernels and starting memory at once. */
module LoweringSteps {
  import opened Broadcasts
  import opened Lowering
  import opened Machine
  import opened Shapes
  import opened TensorGraphs
  import opened Versions
  import opened Views

  ghost function After(w: World, windows: seq<Window>, cs: seq<Command>): Mem
    requires CommandsOk(w.g, windows, cs)
  {
    RunAll(w.g, w.ks, windows, cs, w.start)
  }

  ghost predicate GoodNow(w: World, tb: Tables, i: nat)
    requires Fits(w.g, tb) && i <= |w.g.nodes| && CommandsOk(w.g, tb.windows, tb.commands)
  {
    Good(w, tb, After(w, tb.windows, tb.commands), i)
  }

  /** The commands so far carry every memory past the nodes before i. */
  ghost predicate AllGood(g: TensorGraph, tb: Tables, i: nat) {
    && Fits(g, tb) && i <= |g.nodes| && CommandsOk(g, tb.windows, tb.commands)
    && forall w: World :: w.g == g ==> GoodNow(w, tb, i)
  }

  ghost predicate PreparedIn(w: World, tb: Tables, cs: seq<Command>, next: nat, i: nat, places: seq<Place>)
    requires Fits(w.g, tb) && i < |w.g.nodes| && CommandsOk(w.g, tb.windows, cs)
  {
    && Good(w, tb, After(w, tb.windows, cs), i)
    && OperandsHeld(w, tb.windows, next, After(w, tb.windows, cs), i, places)
  }

  /** The first operands of node i are bound to their values, whatever the kernels and the memory. */
  ghost predicate AllPrepared(g: TensorGraph, tb: Tables, cs: seq<Command>, next: nat, i: nat, places: seq<Place>) {
    && Fits(g, tb) && i < |g.nodes| && CommandsOk(g, tb.windows, cs) && tb.next <= next
    && forall w: World :: w.g == g ==> PreparedIn(w, tb, cs, next, i, places)
  }

  lemma PrepareStart(g: TensorGraph, tb: Tables, next: nat, i: nat)
    requires AllGood(g, tb, i) && i < |g.nodes| && tb.next <= next
    ensures AllPrepared(g, tb, tb.commands, next, i, [])
  {
    assert OpOk(g, i);
    forall w: World | w.g == g
      ensures PreparedIn(w, tb, tb.commands, next, i, [])
    {
      assert GoodNow(w, tb, i);
    }
  }

  ghost function OperandOf(g: TensorGraph, i: nat, places: seq<Place>): Tensor
    requires i < |g.nodes| && |places| < |g.nodes[i].inputs|
  {
    g.nodes[i].inputs[|places|]
  }

  lemma NextOperandOk(g: TensorGraph, tb: Tables, cs: seq<Command>, next: nat, i: nat, places: seq<Place>)
    requires AllPrepared(g, tb, cs, next, i, places) && |places| < |g.nodes[i].inputs|
    ensures TensorOk(g, i, OperandOf(g, i, places))
  {
    assert OpOk(g, i);
  }

  /** A value an operand names was put somewhere by its producer. */
  lemma ProducerRecorded(g: TensorGraph, tb: Tables, cs: seq<Command>, next: nat, i: nat, places: seq<Place>, t: Tensor)
    requires AllPrepared(g, tb, cs, next, i, places) && TensorOk(g, i, t) && t.port.None?
    ensures tb.views[t.node].Some? || 1 <= tb.wrote[t.node] <= |tb.windows|
  {
    var some := World(g, Kernels((_, _, _) => 0, (_, _, _) => 0), _ => 0);
    assert PreparedIn(some, tb, cs, next, i, places);
    assert ValueHeld(some, tb, After(some, tb.windows, cs), t.node);
  }

  ghost predicate StoredIn(w: World, tb: Tables, cs: seq<Command>, i: nat, t: Tensor, p: Place)
    requires Fits(w.g, tb) && i < |w.g.nodes| && CommandsOk(w.g, tb.windows, cs) && TensorOk(w.g, i, t)
    requires Placed(tb.windows, p)
  {
    StorageHeld(w, tb.windows, After(w, tb.windows, cs), i, t, p)
  }

  /** An operand's binding holds its storage in every memory. */
  lemma OperandStored(g: TensorGraph, tb: Tables, cs: seq<Command>, next: nat, i: nat, places: seq<Place>, p: Place)
    requires AllPrepared(g, tb, cs, next, i, places) && Consumed(g) && |places| < |g.nodes[i].inputs|
    requires TensorOk(g, i, OperandOf(g, i, places)) && BoundTo(g, tb, i, OperandOf(g, i, places), p)
    ensures forall w: World :: w.g == g ==> StoredIn(w, tb, cs, i, OperandOf(g, i, places), p)
    ensures p.base.Scratch? ==> p.base.id < next
  {
    forall w: World | w.g == g
      ensures StoredIn(w, tb, cs, i, OperandOf(g, i, places), p) && (p.base.Scratch? ==> p.base.id < next)
    {
      assert PreparedIn(w, tb, cs, next, i, places);
      BoundHolds(w, tb, After(w, tb.windows, cs), i, |places|, p);
    }
    var some := World(g, Kernels((_, _, _) => 0, (_, _, _) => 0), _ => 0);
    assert some.g == g;
  }

  /** A kernel can take this operand as it is bound. */
  ghost predicate TakenAsIs(n: Op, t: Tensor) {
    if n.bcast then t.view.shape == n.shape && Contiguously(t.view) else n.strided || Contiguously(t.view)
  }

  lemma OperandStep(g: TensorGraph, tb: Tables, cs: seq<Command>, next: nat, i: nat, places: seq<Place>, p: Place)
    requires AllPrepared(g, tb, cs, next, i, places) && Consumed(g) && |places| < |g.nodes[i].inputs|
    requires TensorOk(g, i, OperandOf(g, i, places)) && BoundTo(g, tb, i, OperandOf(g, i, places), p)
    requires TakenAsIs(g.nodes[i], OperandOf(g, i, places))
    ensures AllPrepared(g, tb, cs, next, i, places + [p])
  {
    OperandStored(g, tb, cs, next, i, places, p);
    forall w: World | w.g == g
      ensures PreparedIn(w, tb, cs, next, i, places + [p])
    {
      assert PreparedIn(w, tb, cs, next, i, places);
      assert StoredIn(w, tb, cs, i, OperandOf(g, i, places), p);
      var m := After(w, tb.windows, cs);
      if g.nodes[i].bcast {
        OwnOperand(w, tb.windows, next, m, i, |places|, p);
      } else {
        PackedOperand(w, tb.windows, next, m, i, |places|, p);
      }
      OperandsMore(w, tb.windows, next, m, i, places, p);
    }
  }

  lemma OperandsMore(w: World, windows: seq<Window>, next: nat, m: Mem, i: nat, places: seq<Place>, p: Place)
    requires WellFormed(w.g) && i < |w.g.nodes| && OperandsHeld(w, windows, next, m, i, places)
    requires |places| < |w.g.nodes[i].inputs|
    requires TensorOk(w.g, i, w.g.nodes[i].inputs[|places|]) && OperandHeld(w, windows, next, m, i, |places|, p)
    ensures OperandsHeld(w, windows, next, m, i, places + [p])
  {
    forall j: nat | j < |places| + 1
      ensures TensorOk(w.g, i, w.g.nodes[i].inputs[j]) && OperandHeld(w, windows, next, m, i, j, (places + [p])[j])
    {
      if j < |places| {
        assert (places + [p])[j] == places[j] && OperandHeld(w, windows, next, m, i, j, places[j]);
      }
    }
  }

  /** A copy into a transient newer than everything bound changes nothing that was prepared. */
  lemma FreshCopy(w: World, tb: Tables, cs: seq<Command>, next: nat, next': nat, i: nat, places: seq<Place>, c: Command)
    requires Fits(w.g, tb) && i < |w.g.nodes| && CommandsOk(w.g, tb.windows, cs)
    requires PreparedIn(w, tb, cs, next, i, places)
    requires tb.next <= next <= next' && c.Copy? && CommandOk(w.g, tb.windows, c) && c.dst.base.Scratch?
    requires c.dst.base.id >= next
    ensures CommandsOk(w.g, tb.windows, cs + [c]) && PreparedIn(w, tb, cs + [c], next', i, places)
    ensures After(w, tb.windows, cs + [c]) == RunOne(w.g, w.ks, tb.windows, c, After(w, tb.windows, cs))
    ensures SameOld(After(w, tb.windows, cs), After(w, tb.windows, cs + [c]), next)
  {
    var m, m' := After(w, tb.windows, cs), RunOne(w.g, w.ks, tb.windows, c, After(w, tb.windows, cs));
    RunMore(w.g, w.ks, tb.windows, cs, c, w.start);
    assert SameOld(m, m', next);
    GoodSurvives(w, tb, tb, m, m', i);
    forall j: nat | j < |places|
      ensures TensorOk(w.g, i, w.g.nodes[i].inputs[j]) && OperandHeld(w, tb.windows, next', m', i, j, places[j])
    {
      assert OperandHeld(w, tb.windows, next, m, i, j, places[j]);
      OperandSurvives(w, tb.windows, next, next', m, m', i, j, places[j]);
    }
  }

  // ---- materializing ----

  ghost predicate CopyingIn(w: World, tb: Tables, cs: seq<Command>, i: nat, t: Tensor, src: Place, id: nat, block: nat,
      r: nat)
    requires Fits(w.g, tb) && i < |w.g.nodes| && CommandsOk(w.g, tb.windows, cs) && TensorOk(w.g, i, t)
    requires Placed(tb.windows, src)
  {
    && StorageHeld(w, tb.windows, After(w, tb.windows, cs), i, t, src)
    && RunsCopied(tb.windows, After(w, tb.windows, cs), src, t.view.offset, id, block, r)
  }

  /** r copies of the operand's run are in transient `next`. */
  ghost predicate AllCopying(g: TensorGraph, tb: Tables, cs: seq<Command>, next: nat, i: nat, places: seq<Place>,
      src: Place, block: nat, r: nat)
  {
    && AllPrepared(g, tb, cs, next, i, places) && |places| < |g.nodes[i].inputs|
    && TensorOk(g, i, OperandOf(g, i, places))
    && Placed(tb.windows, src) && (src.base.Scratch? ==> src.base.id < next)
    && forall w: World :: w.g == g ==> CopyingIn(w, tb, cs, i, OperandOf(g, i, places), src, next, block, r)
  }

  lemma CopyingStart(g: TensorGraph, tb: Tables, cs: seq<Command>, next: nat, i: nat, places: seq<Place>, src: Place,
      block: nat)
    requires AllPrepared(g, tb, cs, next, i, places) && Consumed(g) && |places| < |g.nodes[i].inputs|
    requires TensorOk(g, i, OperandOf(g, i, places)) && BoundTo(g, tb, i, OperandOf(g, i, places), src)
    ensures AllCopying(g, tb, cs, next, i, places, src, block, 0)
  {
    OperandStored(g, tb, cs, next, i, places, src);
    forall w: World | w.g == g
      ensures CopyingIn(w, tb, cs, i, OperandOf(g, i, places), src, next, block, 0)
    {
      assert StoredIn(w, tb, cs, i, OperandOf(g, i, places), src);
    }
  }

  ghost function RunCopy(src: Place, offset: nat, id: nat, block: nat, r: nat): Command {
    Copy(Place(Scratch(id), RunStart(block, r)), Place(src.base, src.at + offset), block)
  }

  lemma CopyingStep(g: TensorGraph, tb: Tables, cs: seq<Command>, next: nat, i: nat, places: seq<Place>, src: Place,
    block: nat, r: nat)
    requires AllCopying(g, tb, cs, next, i, places, src, block, r)
    ensures var c := RunCopy(src, OperandOf(g, i, places).view.offset, next, block, r);
            AllCopying(g, tb, cs + [c], next, i, places, src, block, r + 1)
  {
    var t := OperandOf(g, i, places);
    var c := RunCopy(src, t.view.offset, next, block, r);
    var r' := r + 1;
    forall w: World | w.g == g
      ensures CommandsOk(g, tb.windows, cs + [c]) && PreparedIn(w, tb, cs + [c], next, i, places)
      ensures CopyingIn(w, tb, cs + [c], i, t, src, next, block, r')
    {
      assert PreparedIn(w, tb, cs, next, i, places);
      assert CopyingIn(w, tb, cs, i, t, src, next, block, r);
      FreshCopy(w, tb, cs, next, next, i, places, c);
      CopyingOne(w, tb.windows, After(w, tb.windows, cs), After(w, tb.windows, cs + [c]), i, t, src, next, block, r);
    }
    var some := World(g, Kernels((_, _, _) => 0, (_, _, _) => 0), _ => 0);
    assert some.g == g;
  }

  lemma CopyingOne(w: World, windows: seq<Window>, m: Mem, m': Mem, i: nat, t: Tensor, src: Place, id: nat, block: nat,
      r: nat)
    requires WellFormed(w.g) && i <= |w.g.nodes| && TensorOk(w.g, i, t) && Placed(windows, src)
    requires StorageHeld(w, windows, m, i, t, src) && RunsCopied(windows, m, src, t.view.offset, id, block, r)
    requires src.base.Scratch? ==> src.base.id < id
    requires forall l: Loc ::
               m'(l) == Copied(windows, Place(Scratch(id), RunStart(block, r)), Place(src.base, src.at + t.view.offset),
                               block, m, l)
    ensures StorageHeld(w, windows, m', i, t, src) && RunsCopied(windows, m', src, t.view.offset, id, block, r + 1)
  {
    forall x: nat | x < StorageOf(w.g, t)
      ensures ElementStored(w, windows, m', i, t, src, x)
    {
      assert ElementStored(w, windows, m, i, t, src, x);
    }
    OneMoreRun(windows, m, m', src, t.view.offset, id, block, r);
  }

  lemma OneMoreRun(windows: seq<Window>, m: Mem, m': Mem, src: Place, offset: nat, id: nat, block: nat, r: nat)
    requires Placed(windows, src) && (src.base.Scratch? ==> src.base.id < id)
    requires RunsCopied(windows, m, src, offset, id, block, r)
    requires forall l: Loc :: m'(l) == Copied(windows, Place(Scratch(id), RunStart(block, r)),
                                              Place(src.base, src.at + offset), block, m, l)
    ensures RunsCopied(windows, m', src, offset, id, block, r + 1)
  {
    forall q: nat, k: nat | q < r + 1 && k < block
      ensures RunCopied(windows, m', src, offset, id, block, q, k)
    {
      if q < r {
        assert RunCopied(windows, m, src, offset, id, block, q, k);
        EarlierRun(block, q, r);
      }
    }
  }

  lemma CopyingEnd(g: TensorGraph, tb: Tables, cs: seq<Command>, next: nat, i: nat, places: seq<Place>, src: Place,
    block: nat, times: nat)
    requires AllCopying(g, tb, cs, next, i, places, src, block, times) && g.nodes[i].bcast
    requires var v := OperandOf(g, i, places).view; var want := g.nodes[i].shape;
             Expands(v, want) && Modular(v, want, block) && block * times == Elements(want)
    ensures AllPrepared(g, tb, cs, next + 1, i, places + [Place(Scratch(next), 0)])
  {
    var t := OperandOf(g, i, places);
    var next' := next + 1;
    forall w: World | w.g == g
      ensures PreparedIn(w, tb, cs, next', i, places + [Place(Scratch(next), 0)])
    {
      assert PreparedIn(w, tb, cs, next, i, places);
      assert CopyingIn(w, tb, cs, i, t, src, next, block, times);
      var m := After(w, tb.windows, cs);
      MaterializedOperand(w, tb.windows, next', m, i, |places|, src, next, block, times);
      forall j: nat | j < |places|
        ensures TensorOk(g, i, g.nodes[i].inputs[j]) && OperandHeld(w, tb.windows, next', m, i, j, places[j])
      {
        assert OperandHeld(w, tb.windows, next, m, i, j, places[j]);
      }
      OperandsMore(w, tb.windows, next', m, i, places, Place(Scratch(next), 0));
    }
  }

  // ---- the in-place copy ----

  /** The rewritten operand moves into a fresh transient. */
  lemma InPlaceStep(g: TensorGraph, tb: Tables, cs: seq<Command>, next: nat, i: nat, places: seq<Place>, src: Place)
    requires AllPrepared(g, tb, cs, next, i, places + [src]) && |places| + 1 == |g.nodes[i].inputs|
    requires g.nodes[i].inPlace
    requires forall w: World :: w.g == g ==> PreparedIn(w, tb, cs, next, i, places)
    ensures var c := Copy(Place(Scratch(next), 0), src, Elements(g.nodes[i].shape));
            AllPrepared(g, tb, cs + [c], next + 1, i, places + [Place(Scratch(next), 0)])
  {
    assert OpOk(g, i);
    var c := Copy(Place(Scratch(next), 0), src, Elements(g.nodes[i].shape));
    var next' := next + 1;
    forall w: World | w.g == g
      ensures CommandsOk(g, tb.windows, cs + [c])
      ensures PreparedIn(w, tb, cs + [c], next', i, places + [Place(Scratch(next), 0)])
    {
      assert PreparedIn(w, tb, cs, next, i, places + [src]) && PreparedIn(w, tb, cs, next, i, places);
      var m := After(w, tb.windows, cs);
      assert (places + [src])[|places|] == src;
      assert OperandHeld(w, tb.windows, next, m, i, |places|, src);
      ScratchOperand(w, tb.windows, next, m, i, |places|, src, next);
      FreshCopy(w, tb, cs, next, next', i, places, c);
      OperandsMore(w, tb.windows, next', After(w, tb.windows, cs + [c]), i, places, Place(Scratch(next), 0));
    }
    var some := World(g, Kernels((_, _, _) => 0, (_, _, _) => 0), _ => 0);
    assert some.g == g;
  }

  lemma PreparedPrefix(g: TensorGraph, tb: Tables, cs: seq<Command>, next: nat, i: nat, places: seq<Place>, p: Place)
    requires AllPrepared(g, tb, cs, next, i, places + [p])
    ensures forall w: World :: w.g == g ==> PreparedIn(w, tb, cs, next, i, places)
  {
    forall w: World | w.g == g
      ensures PreparedIn(w, tb, cs, next, i, places)
    {
      assert PreparedIn(w, tb, cs, next, i, places + [p]);
      var m := After(w, tb.windows, cs);
      forall j: nat | j < |places|
        ensures TensorOk(g, i, g.nodes[i].inputs[j]) && OperandHeld(w, tb.windows, next, m, i, j, places[j])
      {
        assert (places + [p])[j] == places[j] && OperandHeld(w, tb.windows, next, m, i, j, (places + [p])[j]);
      }
    }
  }

  // ---- the dispatch, and what follows it ----

  ghost predicate RanIn(w: World, tb: Tables, cs: seq<Command>, i: nat, result: Place, done: set<nat>)
    requires Fits(w.g, tb) && i < |w.g.nodes| && CommandsOk(w.g, tb.windows, cs) && Placed(tb.windows, result)
  {
    var m := After(w, tb.windows, cs);
    Mid(w, tb, m, i) && ResultHeld(w, tb.windows, m, i, result) && forall p :: p in done ==> OutputHeld(w, m, i, p)
  }

  /** Node i has run: its value is at `result`, and in the output ports of `done`. */
  ghost predicate AllRan(g: TensorGraph, tb: Tables, cs: seq<Command>, i: nat, result: Place, done: set<nat>) {
    && Fits(g, tb) && i < |g.nodes| && CommandsOk(g, tb.windows, cs) && Placed(tb.windows, result)
    && forall w: World :: w.g == g ==> RanIn(w, tb, cs, i, result, done)
  }

  lemma DispatchAll(g: TensorGraph, tb: Tables, cs: seq<Command>, next: nat, i: nat, places: seq<Place>, result: Place)
    requires AllPrepared(g, tb, cs, next, i, places) && |places| == |g.nodes[i].inputs|
    requires ResultPlace(g, tb, i, tb.next, result) && AdvancePlace(g, tb, i, places)
    ensures AllRan(g, tb, cs + [Dispatch(i, places, result)], i, result, {})
  {
    var c := Dispatch(i, places, result);
    forall w: World | w.g == g
      ensures CommandsOk(g, tb.windows, cs + [c]) && RanIn(w, tb, cs + [c], i, result, {})
    {
      assert PreparedIn(w, tb, cs, next, i, places);
      DispatchStep(w, tb, After(w, tb.windows, cs), i, next, places, result);
      RunMore(g, w.ks, tb.windows, cs, c, w.start);
    }
    var some := World(g, Kernels((_, _, _) => 0, (_, _, _) => 0), _ => 0);
    assert some.g == g;
  }

  lemma CopyOutAll(g: TensorGraph, tb: Tables, cs: seq<Command>, i: nat, result: Place, done: set<nat>, dst: Place)
    requires AllRan(g, tb, cs, i, result, done) && result.base.Scratch?
    requires dst.at == 0 && dst.base.Bound? && Placed(tb.windows, dst) && NamedBy(g, i, tb.windows[dst.base.slot - 1])
    ensures AllRan(g, tb, cs + [Copy(dst, result, Elements(g.nodes[i].shape))], i, result,
                   done + {tb.windows[dst.base.slot - 1].port})
  {
    var c := Copy(dst, result, Elements(g.nodes[i].shape));
    var more := done + {tb.windows[dst.base.slot - 1].port};
    forall w: World | w.g == g
      ensures CommandsOk(g, tb.windows, cs + [c]) && RanIn(w, tb, cs + [c], i, result, more)
    {
      assert RanIn(w, tb, cs, i, result, done);
      CopyOutStep(w, tb, After(w, tb.windows, cs), i, result, dst);
      RunMore(g, w.ks, tb.windows, cs, c, w.start);
    }
    var some := World(g, Kernels((_, _, _) => 0, (_, _, _) => 0), _ => 0);
    assert some.g == g;
  }

  /** The result written straight to the one port that names it is already there. */
  lemma DirectOutput(g: TensorGraph, tb: Tables, cs: seq<Command>, i: nat, result: Place)
    requires AllRan(g, tb, cs, i, result, {}) && result.at == 0 && result.base.Bound?
    requires tb.windows[result.base.slot - 1].off == 0
    ensures AllRan(g, tb, cs, i, result, {tb.windows[result.base.slot - 1].port})
  {
    var p := tb.windows[result.base.slot - 1].port;
    forall w: World | w.g == g
      ensures RanIn(w, tb, cs, i, result, {p})
    {
      assert RanIn(w, tb, cs, i, result, {});
      var m := After(w, tb.windows, cs);
      forall x: nat | x < Elements(g.nodes[i].shape)
        ensures ElementHeld(w, m, i, InPort(p, x), x)
      {
        assert ElementHeld(w, m, i, Locate(tb.windows, result, x), x);
      }
    }
  }

  /** The tables now say where node i's value is. */
  ghost predicate Recorded(g: TensorGraph, tb: Tables, tb': Tables, i: nat, result: Place)
    requires Fits(g, tb) && i < |g.nodes|
  {
    && Fits(g, tb') && tb'.windows == tb.windows && tb.next <= tb'.next
    && tb'.views[..i] == tb.views[..i] && tb'.wrote[..i] == tb.wrote[..i]
    && (g.nodes[i].outPort.None? ==>
          if tb'.views[i].Some? then result == Place(Scratch(tb'.views[i].value), 0) && tb'.views[i].value < tb'.next
          else
            && 1 <= tb'.wrote[i] <= |tb.windows| && result == Place(Bound(tb'.wrote[i]), 0)
            && NamedBy(g, i, tb.windows[tb'.wrote[i] - 1]))
  }

  lemma FinishAll(g: TensorGraph, tb: Tables, tb': Tables, i: nat, result: Place, done: set<nat>)
    requires AllRan(g, tb, tb'.commands, i, result, done) && Recorded(g, tb, tb', i, result)
    requires forall p: nat :: PortNamed(g, i, p) ==> p in done
    ensures AllGood(g, tb', i + 1)
  {
    var i' := i + 1;
    forall w: World | w.g == g
      ensures GoodNow(w, tb', i')
    {
      assert RanIn(w, tb, tb'.commands, i, result, done);
      var m := After(w, tb.windows, tb'.commands);
      if g.nodes[i].outPort.None? {
        RecordedHeld(w, tb, tb', m, i, result);
      }
      FinishStep(w, tb, tb', m, i);
    }
  }

  lemma RecordedHeld(w: World, tb: Tables, tb': Tables, m: Mem, i: nat, result: Place)
    requires Fits(w.g, tb) && i < |w.g.nodes| && Recorded(w.g, tb, tb', i, result) && w.g.nodes[i].outPort.None?
    requires Placed(tb.windows, result) && ResultHeld(w, tb.windows, m, i, result)
    ensures ValueHeld(w, tb', m, i)
  {
    if tb'.views[i].Some? {
      forall x: nat | x < Elements(w.g.nodes[i].shape)
        ensures ElementHeld(w, m, i, InScratch(tb'.views[i].value, x), x)
      {
        assert ElementHeld(w, m, i, Locate(tb.windows, result, x), x);
      }
    } else {
      var win := tb.windows[tb'.wrote[i] - 1];
      var o :| o in w.g.outputs && o.source == Result(i) && win == WholePort(w.g, o.port);
      forall x: nat | x < Elements(w.g.nodes[i].shape)
        ensures ElementHeld(w, m, i, InPort(win.port, x), x)
      {
        assert ElementHeld(w, m, i, Locate(tb.windows, result, x), x);
      }
    }
  }
}
