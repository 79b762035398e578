/** State versions: values that stand for the contents of part of a port between two writes, and the
    check that tells whether a version still does. */
module Versions {
  import opened Options
  import opened Shapes

  /** Elements off up to off + count of a port. */
  datatype Window = Window(port: nat, off: nat, count: nat) {
    predicate Overlaps(w: Window) {
      port == w.port && off < w.off + w.count && w.off < off + count
    }

    ghost predicate Within(w: Window) {
      port == w.port && w.off <= off && off + count <= w.off + w.count
    }
  }

  /** A version of caller-owned storage: which range, after which write. */
  datatype State = State(port: nat, offset: nat, shape: Shape, version: int, producer: int) {
    function Range(): Window {
      Window(port, offset, Elements(shape))
    }
  }

  /** One recorded write: the window, the version it made there, and the node that did it. */
  datatype Write = Write(window: Window, version: int, node: nat)

  // ---- what the log of writes says ----

  ghost predicate Ascending(log: seq<Write>, k: nat, l: nat)
    requires k < |log| && l < |log|
  {
    && log[k].node < log[l].node
    && (log[k].window.Overlaps(log[l].window) ==> log[k].version < log[l].version)
  }

  /** Later writes are by later nodes, and make higher versions of whatever they overlap. */
  ghost predicate Ordered(log: seq<Write>, nodes: nat) {
    && (forall k: nat, l: nat :: k < l < |log| ==> Ascending(log, k, l))
    && (forall k: nat :: k < |log| ==> Sensible(log, k, nodes))
  }

  ghost predicate Sensible(log: seq<Write>, k: nat, nodes: nat)
    requires k < |log|
  {
    log[k].node < nodes && log[k].version > 0 && log[k].window.count > 0
  }

  ghost predicate MadeBy(log: seq<Write>, s: State, k: nat)
    requires k < |log|
  {
    log[k].node == s.producer && log[k].version == s.version && s.Range().Within(log[k].window)
  }

  /** s names the version some write made, or the one there at the start. */
  ghost predicate Made(log: seq<Write>, s: State) {
    && Positive(s.shape)
    && ((s.producer == -1 && s.version == 0) || exists k: nat :: k < |log| && MadeBy(log, s, k))
  }

  /** Something overlapping s's range was written after the write that made s. */
  ghost predicate WrittenSince(log: seq<Write>, s: State) {
    exists k: nat :: k < |log| && Later(log, s, k)
  }

  ghost predicate Later(log: seq<Write>, s: State, k: nat)
    requires k < |log|
  {
    log[k].node > s.producer && log[k].window.Overlaps(s.Range())
  }

  /** Element x of port p, after the producer of s, was covered by write k. */
  ghost predicate CoveredLater(log: seq<Write>, s: State, k: nat, x: nat)
    requires k < |log|
  {
    && log[k].node > s.producer && log[k].window.port == s.port
    && log[k].window.off <= x < log[k].window.off + log[k].window.count
  }

  /** Some element of s, from s.offset on, was written after the version was made. */
  ghost predicate ElementWritten(log: seq<Write>, s: State) {
    exists k: nat, x: nat :: k < |log| && s.offset <= x < s.offset + Elements(s.shape) && CoveredLater(log, s, k, x)
  }

  /** Element by element: with no empty window in the log, overlapping a state is sharing an element. */
  lemma WrittenByElement(log: seq<Write>, s: State)
    requires Positive(s.shape) && forall k: nat :: k < |log| ==> log[k].window.count > 0
    ensures WrittenSince(log, s) <==> ElementWritten(log, s)
  {
    ElementsPositive(s.shape);
    if WrittenSince(log, s) {
      var k: nat :| k < |log| && Later(log, s, k);
      assert CoveredLater(log, s, k, if log[k].window.off < s.offset then s.offset else log[k].window.off);
    }
    if ElementWritten(log, s) {
      var k: nat, x: nat :| k < |log| && s.offset <= x < s.offset + Elements(s.shape) && CoveredLater(log, s, k, x);
      assert Later(log, s, k);
    }
  }

  /** Different layers of one state share no element, so writing one says nothing about another. */
  lemma LayersApart(log: seq<Write>, s: State, a: nat, b: nat, node: nat, version: int)
    requires s.shape != [] && Positive(s.shape) && a < s.shape[0] && b < s.shape[0] && a != b
    ensures var n := Elements(s.shape[1..]);
            var layer := s.(shape := s.shape[1..], offset := s.offset + b * n);
            WrittenSince(log + [Write(Window(s.port, s.offset + a * n, n), version, node)], layer) <==>
            WrittenSince(log, layer)
  {
    var n := Elements(s.shape[1..]);
    var entry := Write(Window(s.port, s.offset + a * n, n), version, node);
    var layer := s.(shape := s.shape[1..], offset := s.offset + b * n);
    RowsApart(a, b, n);
    forall k: nat | k < |log|
      ensures Later(log + [entry], layer, k) <==> Later(log, layer, k)
    {
    }
  }

  lemma RowsApart(a: nat, b: nat, n: nat)
    requires a != b
    ensures a * n + n <= b * n || b * n + n <= a * n
  {
    if a < b {
      ProductMonotone(a + 1, b, n);
    } else {
      ProductMonotone(b + 1, a, n);
    }
    assert (a + 1) * n == a * n + n && (b + 1) * n == b * n + n;
  }

  /** The table holds the latest version written to each exact window. */
  ghost predicate Tabled(log: seq<Write>, table: map<Window, int>) {
    && (forall k: nat :: k < |log| ==> InTable(log, table, k))
    && (forall w :: w in table ==> exists k: nat :: k < |log| && log[k].window == w && log[k].version == table[w])
  }

  ghost predicate InTable(log: seq<Write>, table: map<Window, int>, k: nat)
    requires k < |log|
  {
    log[k].window in table && log[k].version <= table[log[k].window]
  }

  /** The highest version in the table over anything that overlaps s, or s's own. */
  ghost predicate IsSuperseding(table: map<Window, int>, s: State, v: int) {
    && v >= s.version
    && (forall w :: w in table && w.Overlaps(s.Range()) ==> table[w] <= v)
    && (v == s.version || exists w :: w in table && w.Overlaps(s.Range()) && table[w] == v)
  }

  lemma RangeNonEmpty(s: State)
    requires Positive(s.shape)
    ensures s.Range().count > 0
  {
    ElementsPositive(s.shape);
  }

  /** Versions written before s was made, over its range, are no higher; those written since are higher. */
  lemma VersionSides(log: seq<Write>, nodes: nat, s: State, k: nat)
    requires Ordered(log, nodes) && Made(log, s) && k < |log| && log[k].window.Overlaps(s.Range())
    ensures log[k].node > s.producer <==> log[k].version > s.version
  {
    assert Sensible(log, k, nodes);
    if s.producer != -1 {
      var p: nat :| p < |log| && MadeBy(log, s, p);
      if p < k {
        assert Ascending(log, p, k);
      } else if k < p {
        assert Ascending(log, k, p);
      }
    }
  }

  /** The version comparison the builder makes is exactly "written since". */
  lemma StaleIsWrittenSince(log: seq<Write>, nodes: nat, table: map<Window, int>, s: State, v: int)
    requires Ordered(log, nodes) && Made(log, s) && Tabled(log, table) && IsSuperseding(table, s, v)
    ensures v > s.version <==> WrittenSince(log, s)
  {
    if v > s.version {
      var w :| w in table && w.Overlaps(s.Range()) && table[w] == v;
      var k: nat :| k < |log| && log[k].window == w && log[k].version == table[w];
      VersionSides(log, nodes, s, k);
      assert Later(log, s, k);
    }
    if WrittenSince(log, s) {
      var k: nat :| k < |log| && Later(log, s, k);
      VersionSides(log, nodes, s, k);
      assert InTable(log, table, k);
    }
  }

  /** Writing through a version that is not stale keeps the log and the table in order. */
  lemma WriteStep(log: seq<Write>, nodes: nat, table: map<Window, int>, s: State)
    requires Ordered(log, nodes) && Tabled(log, table) && Made(log, s) && IsSuperseding(table, s, s.version)
    requires s.version >= 0
    ensures var entry := Write(s.Range(), s.version + 1, nodes);
            && Ordered(log + [entry], nodes + 1)
            && Tabled(log + [entry], table[s.Range() := s.version + 1])
            && Made(log + [entry], s.(version := s.version + 1, producer := nodes))
  {
    var entry := Write(s.Range(), s.version + 1, nodes);
    var more := log + [entry];
    RangeNonEmpty(s);
    forall k: nat, l: nat | k < l < |more|
      ensures Ascending(more, k, l)
    {
      assert Sensible(log, k, nodes);
      if l < |log| {
        assert Ascending(log, k, l);
      } else {
        assert InTable(log, table, k);
      }
    }
    var n := nodes + 1;
    forall k: nat | k < |more|
      ensures Sensible(more, k, n)
    {
      assert k < |log| ==> Sensible(log, k, nodes);
    }
    TableStep(log, table, s, entry);
    assert MadeBy(more, s.(version := s.version + 1, producer := nodes), |log|);
  }

  lemma TableStep(log: seq<Write>, table: map<Window, int>, s: State, entry: Write)
    requires Tabled(log, table) && entry.window == s.Range() && entry.version == s.version + 1
    requires IsSuperseding(table, s, s.version) && s.Range().count > 0
    ensures Tabled(log + [entry], table[s.Range() := s.version + 1])
  {
    var more, next := log + [entry], table[s.Range() := s.version + 1];
    forall k: nat | k < |more|
      ensures InTable(more, next, k)
    {
      assert k < |log| ==> InTable(log, table, k);
    }
    forall w | w in next
      ensures exists k: nat :: k < |more| && more[k].window == w && more[k].version == next[w]
    {
      if w == s.Range() {
        assert more[|log|].window == w;
      } else {
        var k: nat :| k < |log| && log[k].window == w && log[k].version == table[w];
        assert more[k] == log[k];
      }
    }
  }

  /** A version made once stays made, whatever is recorded later. */
  lemma MadeLater(log: seq<Write>, more: seq<Write>, s: State)
    requires Made(log, s) && log <= more
    ensures Made(more, s)
  {
    if !(s.producer == -1 && s.version == 0) {
      var k: nat :| k < |log| && MadeBy(log, s, k);
      assert MadeBy(more, s, k);
    }
  }

  // ---- the builder ----

  class Builder {
    var nodes: nat
    var ports: nat
    var stateVersion: map<Window, int>
    ghost var log: seq<Write>

    ghost predicate Valid()
      reads this
    {
      Ordered(log, nodes) && Tabled(log, stateVersion)
    }

    constructor ()
      ensures Valid() && log == []
    {
      nodes, ports, stateVersion, log := 0, 0, map[], [];
    }

    /** Declares caller-owned storage; a dimension that is not positive, or no shape, is refused. */
    method NewState(shape: seq<int>) returns (s: Option<State>)
      requires Valid()
      modifies `ports
      ensures Valid() && log == old(log)
      ensures s.Some? <==> |shape| > 0 && forall i :: 0 <= i < |shape| ==> shape[i] > 0
      ensures s.Some? ==>
              Made(log, s.value) && s.value.producer == -1 && s.value.port == old(ports) && ports == old(ports) + 1
      ensures s.Some? ==> s.value.offset == 0 && s.value.version == 0 && |s.value.shape| == |shape|
      ensures s.Some? ==> forall i :: 0 <= i < |shape| ==> s.value.shape[i] == shape[i]
    {
      if |shape| == 0 {
        return None;
      }
      var dims: Shape := [];
      for i := 0 to |shape|
        invariant |dims| == i && forall j :: 0 <= j < i ==> dims[j] == shape[j] > 0
      {
        if shape[i] <= 0 {
          return None;
        }
        dims := dims + [shape[i]];
      }
      s := Some(State(ports, 0, dims, 0, -1));
      ports := ports + 1;
    }

    /** One layer's slice of a state: the parent's version and producer over a range inside it. */
    method LayerState(s: State, layer: int) returns (r: Option<State>)
      requires Valid() && Made(log, s)
      ensures r.Some? <==> |s.shape| > 0 && 0 <= layer < s.shape[0]
      ensures r.Some? ==>
                && Made(log, r.value) && r.value.version == s.version && r.value.producer == s.producer
                && r.value.shape == s.shape[1..] && r.value.Range().Within(s.Range())
                && r.value.offset == s.offset + layer * Elements(s.shape[1..])
    {
      if |s.shape| < 1 {
        return None;
      }
      if layer < 0 || layer >= s.shape[0] {
        return None;
      }
      var inner := s.shape[1..];
      LayerFits(s, layer);
      r := Some(s.(shape := inner, offset := s.offset + layer * Elements(inner)));
    }

    lemma LayerFits(s: State, layer: nat)
      requires Made(log, s) && |s.shape| > 0 && layer < s.shape[0]
      ensures var r := s.(shape := s.shape[1..], offset := s.offset + layer * Elements(s.shape[1..]));
              r.Range().Within(s.Range()) && Made(log, r)
    {
      var n := Elements(s.shape[1..]);
      var r := s.(shape := s.shape[1..], offset := s.offset + layer * n);
      assert (layer + 1) * n == layer * n + n;
      ProductMonotone(layer + 1, s.shape[0], n);
      if !(s.producer == -1 && s.version == 0) {
        var k: nat :| k < |log| && MadeBy(log, s, k);
        assert MadeBy(log, r, k);
      }
    }

    /** The highest version over anything overlapping this state's range. */
    method SupersededBy(s: State) returns (latest: int)
      ensures IsSuperseding(stateVersion, s, latest)
    {
      var mine := s.Range();
      latest := s.version;
      var left := stateVersion.Keys;
      while left != {}
        invariant left <= stateVersion.Keys && latest >= s.version
        invariant forall w :: w in stateVersion && w !in left && w.Overlaps(mine) ==> stateVersion[w] <= latest
        invariant latest == s.version || exists w :: w in stateVersion && w.Overlaps(mine) && stateVersion[w] == latest
        decreases left
      {
        var w :| w in left;
        left := left - {w};
        var v := stateVersion[w];
        if w.port != mine.port || v <= latest {
          continue;
        }
        if w.off >= mine.off + mine.count || mine.off >= w.off + w.count {
          continue;
        }
        latest := v;
      }
    }

    /** Whether a version has been superseded: exactly when its range was written since it was made. */
    method Stale(s: State) returns (stale: bool)
      requires Valid() && Made(log, s)
      ensures stale <==> WrittenSince(log, s)
      ensures stale <==> ElementWritten(log, s)
      ensures !stale ==> IsSuperseding(stateVersion, s, s.version)
    {
      var v := SupersededBy(s);
      StaleIsWrittenSince(log, nodes, stateVersion, s, v);
      NoneEmpty();
      WrittenByElement(log, s);
      stale := v > s.version;
    }

    /** Reading a state: refused once its range has been written again. */
    method ReadState(s: State) returns (window: Option<Window>)
      requires Valid() && Made(log, s)
      ensures window == if WrittenSince(log, s) then None else Some(s.Range())
      ensures window == if ElementWritten(log, s) then None else Some(Window(s.port, s.offset, Elements(s.shape)))
    {
      var stale := Stale(s);
      window := if stale then None else Some(s.Range());
    }

    /** Records a node that advances a state, as ScatterRows and LinearAttention both do.
        `admissible` stands for the checks on the other operands. */
    method Advance(s: State, admissible: bool) returns (next: Option<State>)
      requires Valid() && Made(log, s)
      modifies `nodes, `stateVersion, `log
      ensures Valid() && old(log) <= log && Made(log, s)
      ensures next.Some? <==> admissible && !WrittenSince(old(log), s)
      ensures next.None? ==> log == old(log)
      ensures next.Some? ==>
                && log == old(log) + [Write(Window(s.port, s.offset, Elements(s.shape)), s.version + 1, old(nodes))]
                && next.value == s.(version := s.version + 1, producer := old(nodes))
                && Made(log, next.value) && !WrittenSince(log, next.value) && WrittenSince(log, s)
    {
      if !admissible {
        return None;
      }
      var stale := Stale(s);
      if stale {
        return None;
      }
      MadeNonNegative(s);
      WriteStep(log, nodes, stateVersion, s);
      ghost var was := log;
      next := Some(s.(version := s.version + 1, producer := nodes));
      log := log + [Write(s.Range(), s.version + 1, nodes)];
      stateVersion := stateVersion[s.Range() := s.version + 1];
      nodes := nodes + 1;
      MadeLater(was, log, s);
      NewestIsFresh(was, s, next.value);
    }

    /** Records a node that writes no state. */
    method Record()
      requires Valid()
      modifies `nodes
      ensures Valid() && nodes == old(nodes) + 1
    {
      ghost var n := nodes + 1;
      forall k: nat | k < |log|
        ensures Sensible(log, k, n)
      {
        assert Sensible(log, k, nodes);
      }
      nodes := nodes + 1;
    }

    lemma NoneEmpty()
      requires Valid()
      ensures forall k: nat :: k < |log| ==> log[k].window.count > 0
    {
      forall k: nat | k < |log|
        ensures log[k].window.count > 0
      {
        assert Sensible(log, k, nodes);
      }
    }

    lemma MadeNonNegative(s: State)
      requires Valid() && Made(log, s)
      ensures s.version >= 0 && s.producer < nodes
    {
      if !(s.producer == -1 && s.version == 0) {
        var k: nat :| k < |log| && MadeBy(log, s, k);
        assert Sensible(log, k, nodes);
      }
    }

    /** The version just made is fresh, and the one it was made from is not. */
    lemma NewestIsFresh(was: seq<Write>, s: State, next: State)
      requires Valid() && nodes > 0 && log == was + [Write(s.Range(), s.version + 1, nodes - 1)] && Positive(s.shape)
      requires next == s.(version := s.version + 1, producer := nodes - 1) && s.producer < nodes - 1
      ensures !WrittenSince(log, next) && WrittenSince(log, s)
    {
      RangeNonEmpty(s);
      assert Later(log, s, |was|);
      forall k: nat | k < |log|
        ensures !Later(log, next, k)
      {
        assert Sensible(log, k, nodes);
      }
    }
  }

  /** Writes one layer of a state and reads another: the write is taken, and the read is as good as it was. */
  method WriteOtherLayer(m: Builder, s: State, a: nat, b: nat) returns (next: Option<State>, read: Option<Window>)
    requires m.Valid() && Made(m.log, s) && s.shape != [] && a < s.shape[0] && b < s.shape[0] && a != b
    requires !WrittenSince(m.log, s)
    modifies m
    ensures next.Some? && read == Some(Window(s.port, s.offset + b * Elements(s.shape[1..]), Elements(s.shape[1..])))
  {
    var one := m.LayerState(s, a);
    var other := m.LayerState(s, b);
    LayerOfFresh(m.log, s, one.value);
    LayerOfFresh(m.log, s, other.value);
    ghost var was := m.log;
    next := m.Advance(one.value, true);
    LayersApart(was, s, a, b, m.log[|was|].node, m.log[|was|].version);
    MadeLater(was, m.log, other.value);
    read := m.ReadState(other.value);
  }

  /** A part of a fresh state is fresh. */
  lemma LayerOfFresh(log: seq<Write>, s: State, part: State)
    requires part.Range().Within(s.Range()) && part.producer == s.producer && !WrittenSince(log, s)
    ensures !WrittenSince(log, part)
  {
    forall k: nat | k < |log|
      ensures !Later(log, part, k)
    {
      assert !Later(log, s, k);
    }
  }
}
