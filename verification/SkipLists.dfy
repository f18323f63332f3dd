/** The skip list of storage/zstorage/memtable.go: linked towers refining a sorted table. */
module SkipLists {
  import opened ByteStrings
  import opened Entries

  class SkipNode {
    const key: Key
    var value: Value
    var next: seq<SkipNode?>

    constructor (level: nat, key: Key, value: Value)
      ensures this.key == key && this.value == value
      ensures next == seq(level, _ => null)
    {
      this.key := key;
      this.value := value;
      this.next := seq(level, _ => null);
    }
  }

  /** The first position at or after `from` whose tower reaches above `level`. */
  ghost function FirstTaller(heights: seq<nat>, from: nat, level: nat): (r: nat)
    requires from <= |heights|
    ensures from <= r <= |heights|
    ensures r < |heights| ==> heights[r] > level
    decreases |heights| - from
  {
    if from == |heights| || heights[from] > level then from else FirstTaller(heights, from + 1, level)
  }

  /** FirstTaller(from) is r exactly when nothing between is tall and r is the end or tall. */
  lemma {:induction false} FirstTallerIsFirst(heights: seq<nat>, from: nat, level: nat, r: nat)
    requires from <= r <= |heights|
    ensures FirstTaller(heights, from, level) == r <==>
            (forall a :: from <= a < r ==> heights[a] <= level) && (r < |heights| ==> heights[r] > level)
    decreases |heights| - from
  {
    if from < |heights| && heights[from] <= level {
      if from < r {
        FirstTallerIsFirst(heights, from + 1, level, r);
      }
    }
  }

  /** How splicing a tower in at `pos` moves the links: the case analysis behind insert. */
  lemma {:induction false} FirstTallerAfterSplice(heights: seq<nat>, pos: nat, h: nat, from: nat, level: nat)
    requires from <= |heights| && pos <= |heights|
    ensures var spliced := Splice(heights, pos, h);
            var target := FirstTaller(heights, from, level);
            && (from <= pos && target < pos ==> FirstTaller(spliced, from, level) == target)
            && (from <= pos <= target && level < h ==> FirstTaller(spliced, from, level) == pos)
            && (from <= pos <= target && level >= h ==> FirstTaller(spliced, from, level) == target + 1)
            && (pos <= from ==> FirstTaller(spliced, from + 1, level) == target + 1)
  {
    var spliced := Splice(heights, pos, h);
    var r := FirstTaller(heights, from, level);
    FirstTallerIsFirst(heights, from, level, r);
    if from <= pos && r < pos {
      FirstTallerIsFirst(spliced, from, level, r);
    } else if from <= pos && level < h {
      FirstTallerIsFirst(spliced, from, level, pos);
    } else if from <= pos {
      FirstTallerIsFirst(spliced, from, level, r + 1);
    }
    if pos <= from {
      FirstTallerIsFirst(spliced, from + 1, level, r + 1);
    }
  }

  /** The two cases of insert, in the terms of the sorted table. */
  lemma {:induction false} InsertByPosition(t: Table, k: Key, v: Value)
    requires Sorted(t)
    ensures var p, u := LowerBound(t, k), Insert(t, k, v);
            && u == (if HasAt(t, p, k) then t[p := Entry(k, v)] else Splice(t, p, Entry(k, v)))
            && Sorted(u) && TotalBytes(u) == TotalBytes(t) + InsertDelta(t, k, v)
  {
    InsertKeepsSorted(t, k, v);
    TotalBytesAfterInsert(t, k, v);
    InsertIsSplice(t, k, v);
  }

  class SkipList {
    const maxLevel: nat
    var size: int
    var level: nat
    var byteSize: int
    const head: SkipNode

    ghost var nodes: seq<SkipNode>  // the head, then every node in bottom-level order
    ghost var heights: seq<nat>
    ghost var links: seq<seq<SkipNode?>>  // every node's next pointers
    ghost var contents: Table       // what the list stands for

    static ghost function At(nodes: seq<SkipNode>, a: nat): SkipNode? {
      if a < |nodes| then nodes[a] else null
    }

    static ghost predicate Distinct(nodes: seq<SkipNode>) {
      forall a, b :: 0 <= a < b < |nodes| ==> nodes[a] != nodes[b]
    }

    static ghost predicate LinkAt(nodes: seq<SkipNode>, heights: seq<nat>, links: seq<seq<SkipNode?>>, a: nat, i: nat)
      requires a < |nodes| == |heights| == |links| && i < |links[a]|
    {
      links[a][i] == At(nodes, FirstTaller(heights, a + 1, i))
    }

    /** On every level, each tower points at the next tower tall enough: level i + 1 is a
        sublist of level i, and level 0 is the whole list. */
    static ghost predicate Linked(nodes: seq<SkipNode>, heights: seq<nat>, links: seq<seq<SkipNode?>>) {
      && |nodes| == |heights| == |links|
      && (forall a :: 0 <= a < |nodes| ==> |links[a]| == heights[a])
      && (forall a: nat, i: nat :: a < |nodes| && i < |links[a]| ==> LinkAt(nodes, heights, links, a, i))
    }

    /** The heap holds what the ghost sequences say. */
    static ghost predicate Mirrors(nodes: seq<SkipNode>, links: seq<seq<SkipNode?>>, contents: Table)
      reads nodes
    {
      && |nodes| == |links| == |contents| + 1
      && (forall a :: 0 <= a < |nodes| ==> nodes[a].next == links[a])
      && (forall a :: 1 <= a < |nodes| ==> contents[a - 1] == Entry(nodes[a].key, nodes[a].value))
    }

    static ghost predicate Shape(nodes: seq<SkipNode>, heights: seq<nat>, head: SkipNode, level: nat, maxLevel: nat) {
      && 1 <= maxLevel && level <= maxLevel
      && |nodes| == |heights| > 0
      && nodes[0] == head && heights[0] == maxLevel
      && (forall a :: 1 <= a < |heights| ==> 1 <= heights[a] <= level)
    }

    ghost predicate Towers()
      reads this
    {
      Shape(nodes, heights, head, level, maxLevel)
    }

    ghost predicate Valid()
      reads this, nodes
    {
      && Towers() && Distinct(nodes) && Linked(nodes, heights, links) && Mirrors(nodes, links, contents)
      && Sorted(contents)
      && size == |contents|
      && byteSize == TotalBytes(contents)
    }

    constructor (maxLevel: nat)
      requires 1 <= maxLevel
      ensures Valid() && fresh(nodes) && contents == []
      ensures this.maxLevel == maxLevel
    {
      var h := new SkipNode(maxLevel, [], None);
      this.maxLevel := maxLevel;
      this.size, this.level, this.byteSize := 0, 0, 0;
      this.head := h;
      this.nodes, this.heights, this.links, this.contents := [h], [maxLevel], [seq(maxLevel, _ => null)], [];
    }

    // ----------------------------------------------------------------- reading

    /** Node u is the last one on level j among the first pos + 1 nodes. */
    ghost predicate IsUpdate(u: nat, j: nat, pos: nat)
      requires Towers()
      reads this
    {
      && pos < |nodes| && u <= pos && heights[u] > j
      && FirstTaller(heights, u + 1, j) > pos
    }

    /** The descent shared by search, firstGTE and insert: the last node below the key, and for
        every level in use the last node below the key on that level. */
    method Descend(key: Key) returns (p: SkipNode, update: seq<SkipNode?>, ghost at: seq<nat>)
      requires Valid()
      ensures p == nodes[LowerBound(contents, key)]
      ensures |p.next| > 0 && p.next[0] == At(nodes, LowerBound(contents, key) + 1)
      ensures |update| == |at| == maxLevel
      ensures forall j :: 0 <= j < level ==> IsUpdate(at[j], j, LowerBound(contents, key)) && update[j] == nodes[at[j]]
    {
      p := head;
      update := seq(maxLevel, _ => null);
      at := seq(maxLevel, _ => 0);
      ghost var a: nat := 0;
      var i := level;
      while i > 0
        invariant 0 <= i <= level
        invariant a < |nodes| && p == nodes[a] && heights[a] >= i
        invariant a == 0 || Less(nodes[a].key, key)
        invariant |update| == |at| == maxLevel
        invariant forall j :: i <= j < level ==> StopsAt(at[j], j, a, key) && update[j] == nodes[at[j]]
        invariant i == 0 && level > 0 ==> at[0] == a
      {
        i := i - 1;
        p, a := WalkLevel(key, i, p, a);
        update := update[i := p];
        at := at[i := a];
      }
      BelowIsPrefix(key, a, at);
      assert LinkAt(nodes, heights, links, a, 0);
    }

    ghost predicate StopsAt(u: nat, j: nat, a: nat, key: Key)
      requires Towers()
      reads this, nodes
    {
      && u <= a < |nodes| && heights[u] > j
      && (var b := FirstTaller(heights, u + 1, j); b < |nodes| ==> !Less(nodes[b].key, key))
    }

    /** The inner loop of the descent. */
    method WalkLevel(key: Key, i: nat, p0: SkipNode, ghost a0: nat) returns (p: SkipNode, ghost a: nat)
      requires Valid() && i < level
      requires a0 < |nodes| && p0 == nodes[a0] && heights[a0] > i
      requires a0 == 0 || Less(nodes[a0].key, key)
      ensures a0 <= a && StopsAt(a, i, a, key) && p == nodes[a]
      ensures a == 0 || Less(nodes[a].key, key)
    {
      p, a := p0, a0;
      assert LinkAt(nodes, heights, links, a, i);
      while p.next[i] != null && Less(p.next[i].key, key)
        invariant a0 <= a < |nodes| && p == nodes[a] && heights[a] > i && LinkAt(nodes, heights, links, a, i)
        invariant a == 0 || Less(nodes[a].key, key)
        decreases |nodes| - a
      {
        a := FirstTaller(heights, a + 1, i);
        p := p.next[i];
        assert LinkAt(nodes, heights, links, a, i);
      }
    }

    lemma {:induction false} BelowIsPrefix(key: Key, a: nat, at: seq<nat>)
      requires Valid()
      requires a < |nodes| && (a == 0 || Less(nodes[a].key, key))
      requires |at| == maxLevel && (level > 0 ==> at[0] == a)
      requires forall j :: 0 <= j < level ==> StopsAt(at[j], j, a, key)
      ensures LowerBound(contents, key) == a
      ensures forall j :: 0 <= j < level ==> IsUpdate(at[j], j, a)
      ensures FirstTaller(heights, a + 1, 0) == a + 1
    {
      forall b | 0 < b <= a ensures Less(nodes[b].key, key) {
        assert contents[a - 1].key == nodes[a].key && contents[b - 1].key == nodes[b].key;
        if b < a {
          LessIsTransitive(contents[b - 1].key, contents[a - 1].key, key);
        }
      }
      if a + 1 < |nodes| {
        FirstTallerIsFirst(heights, a + 1, 0, a + 1);
        assert StopsAt(at[0], 0, a, key);
      }
      assert forall b :: 0 <= b < a ==> contents[b].key == nodes[b + 1].key;
      LowerBoundIsUnique(contents, key, a);
      forall j | 0 <= j < level ensures IsUpdate(at[j], j, a) {
        assert StopsAt(at[j], j, a, key);
        assert FirstTaller(heights, at[j] + 1, j) > a;
      }
    }

    method Search(key: Key) returns (r: Option<Value>)
      requires Valid()
      ensures r == Lookup(contents, key)
    {
      var p, _, _ := Descend(key);
      var q := p.next[0];
      SearchAtLowerBound(contents, key);
      if q != null && Compare(q.key, key) == 0 {
        return Some(q.value);
      }
      return None;
    }

    method FirstGTE(key: Key) returns (q: SkipNode?)
      requires Valid()
      ensures q == At(nodes, LowerBound(contents, key) + 1)
    {
      var p, _, _ := Descend(key);
      q := p.next[0];
    }

    /** The walk along the bottom level. */
    method CollectAllEntry() returns (entries: Table)
      requires Valid()
      ensures entries == contents
    {
      entries := [];
      ghost var a: nat := 0;
      BottomLevel(0);
      var p := head.next[0];
      while p != null
        invariant a < |nodes| && p == At(nodes, a + 1)
        invariant entries == contents[..a]
        decreases |nodes| - a
      {
        var e, next := ReadNode(p, a);
        entries, p := entries + [e], next;
        a := a + 1;
      }
    }

    /** One node of that walk. */
    method ReadNode(p: SkipNode, ghost a: nat) returns (e: Entry, next: SkipNode?)
      requires Valid() && p == At(nodes, a + 1)
      ensures a < |contents| && e == contents[a] && next == At(nodes, a + 2)
    {
      BottomLevel(a + 1);
      e, next := Entry(p.key, p.value), p.next[0];
    }

    lemma {:induction false} BottomLevel(a: nat)
      requires Valid() && a < |nodes|
      ensures |nodes[a].next| > 0 && nodes[a].next[0] == At(nodes, a + 1)
    {
      assert LinkAt(nodes, heights, links, a, 0);
      if a + 1 < |nodes| {
        FirstTallerIsFirst(heights, a + 1, 0, a + 1);
      }
    }

    // ------------------------------------------------------------------ levels

    /** Following next[i] from n visits exactly these nodes and ends. */
    static ghost predicate Follows(n: SkipNode, i: nat, chain: seq<SkipNode>)
      reads n, chain
    {
      && i < |n.next|
      && (if chain == [] then n.next[i] == null else n.next[i] == chain[0] && Follows(chain[0], i, chain[1..]))
    }

    /** Following any level from any node that reaches it comes to an end. */
    lemma {:induction false} LevelEnds(a: nat, i: nat) returns (chain: seq<SkipNode>)
      requires Valid() && a < |nodes| && i < heights[a]
      ensures Follows(nodes[a], i, chain)
      decreases |nodes| - a
    {
      assert LinkAt(nodes, heights, links, a, i);
      var r := FirstTaller(heights, a + 1, i);
      if r == |nodes| {
        chain := [];
      } else {
        var rest := LevelEnds(r, i);
        chain := [nodes[r]] + rest;
        assert chain[1..] == rest;
      }
    }

    /** The nodes at some positions. */
    static ghost predicate StandAt(chain: seq<SkipNode>, nodes: seq<SkipNode>, positions: seq<nat>) {
      |chain| == |positions| && forall j :: 0 <= j < |chain| ==> positions[j] < |nodes| && chain[j] == nodes[positions[j]]
    }

    static lemma {:induction false} StandsIffListed(chain: seq<SkipNode>, nodes: seq<SkipNode>, ps: seq<nat>)
      requires StandAt(chain, nodes, ps) && Distinct(nodes)
      ensures forall a: nat :: a < |nodes| ==> (nodes[a] in chain <==> a in ps)
    {
      forall a: nat | a < |nodes| ensures nodes[a] in chain <==> a in ps {
        if a in ps {
          var j :| 0 <= j < |ps| && ps[j] == a;
          assert chain[j] == nodes[a];
        }
        if nodes[a] in chain {
          var j :| 0 <= j < |chain| && chain[j] == nodes[a];
          assert ps[j] in ps;
        }
      }
    }

    lemma {:induction false} ChainIsLevel(chain: seq<SkipNode>, a: nat, i: nat)
      requires Valid() && a < |nodes| && Follows(nodes[a], i, chain)
      ensures StandAt(chain, nodes, Level(heights, a + 1, i))
      decreases |chain|
    {
      assert LinkAt(nodes, heights, links, a, i);
      var r := FirstTaller(heights, a + 1, i);
      if chain != [] {
        assert chain[0] == nodes[r];
        ChainIsLevel(chain[1..], r, i);
        var rest := Level(heights, r + 1, i);
        assert Level(heights, a + 1, i) == [r] + rest;
      }
    }

    /** Following one level visits, in key order, exactly the nodes whose towers reach it. */
    lemma {:induction false} LevelVisitsTallTowers(chain: seq<SkipNode>, i: nat)
      requires Valid() && Follows(head, i, chain)
      ensures forall a :: 1 <= a < |nodes| ==> (nodes[a] in chain <==> heights[a] > i)
      ensures forall n :: n in chain ==> n in nodes && n != head
      ensures forall j, l :: 0 <= j < l < |chain| ==> Less(chain[j].key, chain[l].key)
    {
      var ps := Level(heights, 1, i);
      ChainIsLevel(chain, 0, i);
      LevelHasTheTallTowers(heights, 1, i);
      forall j | 0 <= j < |chain| ensures chain[j] in nodes && chain[j] != head {
        assert ps[j] in ps;
      }
      StandsIffListed(chain, nodes, ps);
      forall j, l | 0 <= j < l < |chain| ensures Less(chain[j].key, chain[l].key) {
        assert ps[j] in ps && ps[l] in ps;
        assert contents[ps[j] - 1].key == chain[j].key && contents[ps[l] - 1].key == chain[l].key;
      }
    }

    /** Every level is a sublist of the level below, and the bottom one is the whole list. */
    lemma {:induction false} LevelsNest(lower: seq<SkipNode>, upper: seq<SkipNode>, i: nat)
      requires Valid() && Follows(head, i, lower) && Follows(head, i + 1, upper)
      ensures forall n :: n in upper ==> n in lower
      ensures i == 0 ==> forall a :: 1 <= a < |nodes| ==> nodes[a] in lower
    {
      LevelVisitsTallTowers(lower, i);
      LevelVisitsTallTowers(upper, i + 1);
      forall n | n in upper ensures n in lower {
        var a :| 0 <= a < |nodes| && nodes[a] == n;
        assert heights[a] > i + 1;
      }
    }

    // ----------------------------------------------------------------- writing

    /** newLevel is what randomLevel drew: any height from 1 to maxLevel. */
    method Insert(key: Key, value: Value, newLevel: nat) returns (delta: int)
      requires Valid() && 1 <= newLevel <= maxLevel
      modifies this, nodes
      ensures Valid()
      ensures forall n :: n in nodes && n !in old(nodes) ==> fresh(n)
      ensures contents == Entries.Insert(old(contents), key, value)
      ensures delta == InsertDelta(old(contents), key, value)
      ensures delta == byteSize - old(byteSize)
    {
      ghost var pos := LowerBound(contents, key);
      InsertByPosition(contents, key, value);
      var p, update, at := Descend(key);
      var q := p.next[0];
      if q != null && Compare(q.key, key) == 0 {
        delta := ValueLen(value) - ValueLen(q.value);
        Overwrite(value, q, pos);
      } else {
        delta := |key| + ValueLen(value);
        AddNode(key, value, newLevel, update, at, pos);
      }
    }

    method Overwrite(value: Value, q: SkipNode, ghost pos: nat)
      requires Valid()
      requires pos < |contents| && q == nodes[pos + 1]
      requires Sorted(contents[pos := Entry(q.key, value)])
      requires TotalBytes(contents[pos := Entry(q.key, value)]) == byteSize + ValueLen(value) - ValueLen(q.value)
      modifies this`contents, this`byteSize, nodes
      ensures Valid()
      ensures contents == old(contents)[pos := Entry(q.key, value)]
    {
      byteSize := byteSize + (ValueLen(value) - ValueLen(q.value));
      q.value := value;
      contents := contents[pos := Entry(q.key, value)];
    }

    method AddNode(key: Key, value: Value, newLevel: nat, update: seq<SkipNode?>, ghost at: seq<nat>, ghost pos: nat)
      requires Valid()
      requires 1 <= newLevel <= maxLevel && |update| == |at| == maxLevel && pos <= |contents|
      requires forall j :: 0 <= j < level ==> IsUpdate(at[j], j, pos) && update[j] == nodes[at[j]]
      requires Sorted(Splice(contents, pos, Entry(key, value)))
      requires TotalBytes(Splice(contents, pos, Entry(key, value))) == byteSize + |key| + ValueLen(value)
      modifies this, nodes
      ensures Valid()
      ensures forall n :: n in nodes && n !in old(nodes) ==> fresh(n)
      ensures contents == Splice(old(contents), pos, Entry(key, value))
    {
      AddTower(key, value, newLevel, update, at, pos);
      size := size + 1;
      byteSize := byteSize + (|key| + ValueLen(value));
    }

    method AddTower(key: Key, value: Value, newLevel: nat, update: seq<SkipNode?>, ghost at: seq<nat>, ghost pos: nat)
      requires Towers() && Distinct(nodes) && Linked(nodes, heights, links) && Mirrors(nodes, links, contents)
      requires 1 <= newLevel <= maxLevel && |update| == |at| == maxLevel && pos <= |contents|
      requires forall j :: 0 <= j < level ==> IsUpdate(at[j], j, pos) && update[j] == nodes[at[j]]
      modifies this`level, this`nodes, this`heights, this`links, this`contents, nodes
      ensures Towers() && Distinct(nodes) && Linked(nodes, heights, links) && Mirrors(nodes, links, contents)
      ensures forall n :: n in nodes && n !in old(nodes) ==> fresh(n)
      ensures contents == Splice(old(contents), pos, Entry(key, value))
    {
      var newNode, links', at := LinkTower(key, value, newLevel, update, at, pos);
      SpliceAll(nodes, heights, links', head, level, maxLevel, contents, pos, newNode, newLevel, at);
      level := if newLevel > level then newLevel else level;
      contents := Splice(contents, pos, Entry(key, value));
      nodes := Splice(nodes, pos + 1, newNode);
      heights := Splice(heights, pos + 1, newLevel);
      links := Splice(links', pos + 1, newNode.next);
    }

    /** The new node, linked into every level below its height. */
    method LinkTower(key: Key, value: Value, newLevel: nat, update: seq<SkipNode?>, ghost at: seq<nat>, ghost pos: nat)
      returns (newNode: SkipNode, ghost links': seq<seq<SkipNode?>>, ghost at': seq<nat>)
      requires Towers() && Distinct(nodes) && Linked(nodes, heights, links) && Mirrors(nodes, links, contents)
      requires 1 <= newLevel <= maxLevel && |update| == |at| == maxLevel && pos <= |contents|
      requires forall j :: 0 <= j < level ==> IsUpdate(at[j], j, pos) && update[j] == nodes[at[j]]
      modifies nodes
      ensures fresh(newNode) && newNode.key == key && newNode.value == value && |newNode.next| == newLevel <= |at'|
      ensures TakesOver(nodes, heights, newNode.next, newLevel, at')
      ensures Mirrors(nodes, links', contents) && PartlyLinked(nodes, heights, links', newNode, newLevel, at')
      ensures forall j :: 0 <= j < newLevel ==> IsUpdate(at'[j], j, pos)
    {
      var update', at1 := AddHeads(newLevel, update, at, pos);
      at' := at1;
      newNode, links' := LinkIn(key, value, newLevel, update', at1);
    }

    static lemma {:induction false} SpliceAll(nodes: seq<SkipNode>, heights: seq<nat>, links: seq<seq<SkipNode?>>, head: SkipNode,
                                              level: nat, maxLevel: nat, contents: Table, pos: nat, n: SkipNode, h: nat, at: seq<nat>)
      requires Shape(nodes, heights, head, level, maxLevel) && Distinct(nodes) && Mirrors(nodes, links, contents)
      requires n !in nodes && 1 <= h <= maxLevel && |n.next| == h <= |at| && pos <= |contents|
      requires PartlyLinked(nodes, heights, links, n, h, at) && TakesOver(nodes, heights, n.next, h, at)
      requires forall j :: 0 <= j < h ==>
        at[j] <= pos && heights[at[j]] > j && FirstTaller(heights, at[j] + 1, j) > pos
      ensures var nodes', heights' := Splice(nodes, pos + 1, n), Splice(heights, pos + 1, h);
              var links' := Splice(links, pos + 1, n.next);
              && Shape(nodes', heights', head, if h > level then h else level, maxLevel) && Distinct(nodes')
              && Linked(nodes', heights', links') && Mirrors(nodes', links', Splice(contents, pos, Entry(n.key, n.value)))
      ensures forall m :: m in Splice(nodes, pos + 1, n) ==> m in nodes || m == n
    {
      SpliceShape(nodes, heights, head, level, maxLevel, pos + 1, n, h);
      SpliceIsDistinct(nodes, pos + 1, n);
      SpliceIsLinked(nodes, heights, links, pos + 1, n, n.next, at);
      SpliceMirrors(nodes, links, contents, pos, n);
    }

    static lemma {:induction false} SpliceShape(nodes: seq<SkipNode>, heights: seq<nat>, head: SkipNode, level: nat, maxLevel: nat,
                             p: nat, n: SkipNode, h: nat)
      requires Shape(nodes, heights, head, level, maxLevel) && 1 <= p <= |nodes| && 1 <= h <= maxLevel
      ensures Shape(Splice(nodes, p, n), Splice(heights, p, h), head, if h > level then h else level, maxLevel)
    {
    }

    /** A tower taller than the list: the head precedes it on the new levels. */
    method AddHeads(newLevel: nat, update: seq<SkipNode?>, ghost at: seq<nat>, ghost pos: nat)
      returns (update': seq<SkipNode?>, ghost at': seq<nat>)
      requires Towers() && newLevel <= maxLevel && pos < |nodes|
      requires |update| == |at| == maxLevel
      requires forall j :: 0 <= j < level ==> IsUpdate(at[j], j, pos) && update[j] == nodes[at[j]]
      ensures |update'| == |at'| == maxLevel
      ensures forall j :: 0 <= j < newLevel ==> IsUpdate(at'[j], j, pos) && update'[j] == nodes[at'[j]]
    {
      update', at' := update, at;
      var i := level;
      while i < newLevel
        invariant level <= i
        invariant |update'| == |at'| == maxLevel
        invariant forall j :: 0 <= j < i && j < maxLevel ==> IsUpdate(at'[j], j, pos) && update'[j] == nodes[at'[j]]
      {
        FirstTallerIsFirst(heights, 1, i, |heights|);
        update' := update'[i := head];
        at' := at'[i := 0];
        i := i + 1;
      }
    }

    /** The links while the new node n is linked in on the levels below h. */
    static ghost predicate PartlyLinked(nodes: seq<SkipNode>, heights: seq<nat>, links: seq<seq<SkipNode?>>,
                                        n: SkipNode, h: nat, at: seq<nat>)
      requires h <= |at|
    {
      && |nodes| == |heights| == |links|
      && (forall a :: 0 <= a < |nodes| ==> |links[a]| == heights[a])
      && (forall a: nat, i: nat :: a < |nodes| && i < |links[a]| ==> MidLink(nodes, heights, links, n, h, at, a, i))
    }

    static ghost predicate MidLink(nodes: seq<SkipNode>, heights: seq<nat>, links: seq<seq<SkipNode?>>,
                                   n: SkipNode, h: nat, at: seq<nat>, a: nat, i: nat)
      requires a < |nodes| == |heights| == |links| && i < |links[a]| && h <= |at|
    {
      links[a][i] == if i < h && a == at[i] then n else At(nodes, FirstTaller(heights, a + 1, i))
    }

    /** On the levels below h the new node points where its predecessors pointed. */
    static ghost predicate TakesOver(nodes: seq<SkipNode>, heights: seq<nat>, next: seq<SkipNode?>, h: nat, at: seq<nat>)
    {
      && h <= |next| && h <= |at|
      && (forall j :: 0 <= j < h ==>
            at[j] < |heights| && next[j] == At(nodes, FirstTaller(heights, at[j] + 1, j)))
    }

    static lemma {:induction false} TakesOverStep(nodes: seq<SkipNode>, heights: seq<nat>, next: seq<SkipNode?>, h: nat, at: seq<nat>)
      requires TakesOver(nodes, heights, next, h, at) && h < |next| && h < |at| && at[h] < |heights|
      ensures TakesOver(nodes, heights, next[h := At(nodes, FirstTaller(heights, at[h] + 1, h))], h + 1, at)
    {
    }

    /** The relinking loop: on each of its levels the new node takes over its predecessor's link. */
    method LinkIn(key: Key, value: Value, newLevel: nat, update: seq<SkipNode?>, ghost at: seq<nat>)
      returns (newNode: SkipNode, ghost links': seq<seq<SkipNode?>>)
      requires Distinct(nodes) && Linked(nodes, heights, links) && Mirrors(nodes, links, contents)
      requires newLevel <= |update| == |at|
      requires forall j :: 0 <= j < newLevel ==>
        at[j] < |nodes| && heights[at[j]] > j && update[j] == nodes[at[j]]
      modifies nodes
      ensures fresh(newNode) && newNode.key == key && newNode.value == value && |newNode.next| == newLevel
      ensures TakesOver(nodes, heights, newNode.next, newLevel, at)
      ensures Mirrors(nodes, links', contents) && PartlyLinked(nodes, heights, links', newNode, newLevel, at)
    {
      newNode := new SkipNode(newLevel, key, value);
      links' := links;
      LinkedIsUnstarted(newNode, at);
      var i := 0;
      while i < newLevel
        invariant i <= newLevel && |newNode.next| == newLevel && newNode.value == value && newNode !in nodes
        invariant TakesOver(nodes, heights, newNode.next, i, at)
        invariant Mirrors(nodes, links', contents)
        invariant PartlyLinked(nodes, heights, links', newNode, i, at)
      {
        links' := LinkStep(newNode, update[i], i, at, links');
        i := i + 1;
      }
    }

    /** One turn of the relinking loop. */
    method LinkStep(n: SkipNode, u: SkipNode, i: nat, ghost at: seq<nat>, ghost links0: seq<seq<SkipNode?>>)
      returns (ghost links': seq<seq<SkipNode?>>)
      requires Distinct(nodes) && Mirrors(nodes, links0, contents) && n !in nodes
      requires i < |at| && at[i] < |nodes| == |heights| && heights[at[i]] > i && u == nodes[at[i]] && i < |n.next|
      requires TakesOver(nodes, heights, n.next, i, at) && PartlyLinked(nodes, heights, links0, n, i, at)
      modifies n`next, u`next
      ensures |n.next| == old(|n.next|)
      ensures TakesOver(nodes, heights, n.next, i + 1, at) && PartlyLinked(nodes, heights, links', n, i + 1, at)
      ensures Mirrors(nodes, links', contents)
    {
      assert MidLink(nodes, heights, links0, n, i, at, at[i], i);
      PartlyLinkedStep(nodes, heights, links0, n, i, at);
      TakesOverStep(nodes, heights, n.next, i, at);
      links' := LinkLevel(n, u, i, at[i], links0);
    }

    method LinkLevel(n: SkipNode, u: SkipNode, i: nat, ghost a: nat, ghost links0: seq<seq<SkipNode?>>)
      returns (ghost links': seq<seq<SkipNode?>>)
      requires Distinct(nodes) && Mirrors(nodes, links0, contents)
      requires n !in nodes && a < |nodes| && u == nodes[a] && i < |n.next| && i < |links0[a]|
      modifies n`next, u`next
      ensures n.next == old(n.next)[i := links0[a][i]]
      ensures links' == links0[a := links0[a][i := n]]
      ensures Mirrors(nodes, links', contents)
    {
      n.next := n.next[i := u.next[i]];
      u.next := u.next[i := n];
      links' := links0[a := links0[a][i := n]];
    }

    lemma {:induction false} LinkedIsUnstarted(n: SkipNode, at: seq<nat>)
      requires Linked(nodes, heights, links)
      ensures PartlyLinked(nodes, heights, links, n, 0, at)
    {
      forall a: nat, i: nat | a < |nodes| && i < |links[a]| ensures MidLink(nodes, heights, links, n, 0, at, a, i) {
        assert LinkAt(nodes, heights, links, a, i);
      }
    }

    static lemma {:induction false} PartlyLinkedStep(nodes: seq<SkipNode>, heights: seq<nat>, links: seq<seq<SkipNode?>>,
                                  n: SkipNode, h: nat, at: seq<nat>)
      requires h < |at| && PartlyLinked(nodes, heights, links, n, h, at)
      requires at[h] < |nodes| && h < heights[at[h]]
      ensures PartlyLinked(nodes, heights, links[at[h] := links[at[h]][h := n]], n, h + 1, at)
    {
      var links' := links[at[h] := links[at[h]][h := n]];
      var h' := h + 1;
      forall a: nat, i: nat | a < |nodes| && i < |links'[a]| ensures MidLink(nodes, heights, links', n, h', at, a, i) {
        assert MidLink(nodes, heights, links, n, h, at, a, i);
      }
    }

    // --------------------------------------------- how a splice moves the links

    static lemma {:induction false} SpliceIsDistinct(nodes: seq<SkipNode>, p: nat, n: SkipNode)
      requires p <= |nodes| && Distinct(nodes) && n !in nodes
      ensures Distinct(Splice(nodes, p, n))
      ensures forall m :: m in Splice(nodes, p, n) ==> m in nodes || m == n
    {
    }

    static lemma {:induction false} SpliceMirrors(nodes: seq<SkipNode>, links: seq<seq<SkipNode?>>, contents: Table, pos: nat, n: SkipNode)
      requires Mirrors(nodes, links, contents) && pos <= |contents|
      ensures Mirrors(Splice(nodes, pos + 1, n), Splice(links, pos + 1, n.next), Splice(contents, pos, Entry(n.key, n.value)))
    {
    }

    static lemma {:induction false} UpdateIsLast(heights: seq<nat>, a: nat, j: nat, u: nat, pos: nat)
      requires pos < |heights| && u <= pos && heights[u] > j && FirstTaller(heights, u + 1, j) > pos
      requires a <= pos && heights[a] > j
      ensures a == u <==> FirstTaller(heights, a + 1, j) > pos
    {
      FirstTallerIsFirst(heights, u + 1, j, FirstTaller(heights, u + 1, j));
      FirstTallerIsFirst(heights, a + 1, j, FirstTaller(heights, a + 1, j));
    }

    static lemma {:induction false} SplicedAt(nodes: seq<SkipNode>, p: nat, n: SkipNode, b: nat)
      requires p <= |nodes|
      ensures At(Splice(nodes, p, n), p) == n
      ensures b < p ==> At(Splice(nodes, p, n), b) == At(nodes, b)
      ensures b >= p ==> At(Splice(nodes, p, n), b + 1) == At(nodes, b)
    {
    }

    static lemma {:induction false} SpliceIsLinked(nodes: seq<SkipNode>, heights: seq<nat>, links: seq<seq<SkipNode?>>,
                                p: nat, n: SkipNode, next: seq<SkipNode?>, at: seq<nat>)
      requires |next| <= |at| && PartlyLinked(nodes, heights, links, n, |next|, at)
      requires 1 <= p <= |nodes|
      requires forall j :: 0 <= j < |next| ==>
        at[j] < p && heights[at[j]] > j && FirstTaller(heights, at[j] + 1, j) >= p
      requires TakesOver(nodes, heights, next, |next|, at)
      ensures Linked(Splice(nodes, p, n), Splice(heights, p, |next|), Splice(links, p, next))
    {
      var nodes', heights', links' := Splice(nodes, p, n), Splice(heights, p, |next|), Splice(links, p, next);
      forall a: nat, i: nat | a < |nodes'| && i < |links'[a]| ensures LinkAt(nodes', heights', links', a, i) {
        SplicedLink(nodes, heights, p, n, |next|, if i < |next| then at[i] else 0, a, i);
        if a < p {
          assert MidLink(nodes, heights, links, n, |next|, at, a, i);
        } else if a > p {
          assert MidLink(nodes, heights, links, n, |next|, at, a - 1, i);
        }
      }
    }

    /** One link after the splice, from the links before it. */
    static lemma {:induction false} SplicedLink(nodes: seq<SkipNode>, heights: seq<nat>, p: nat, n: SkipNode, h: nat, u: nat, a: nat, i: nat)
      requires |nodes| == |heights| && 1 <= p <= |nodes| && a <= |nodes|
      requires i < Splice(heights, p, h)[a]
      requires i < h ==> u < p && heights[u] > i && FirstTaller(heights, u + 1, i) >= p
      ensures At(Splice(nodes, p, n), FirstTaller(Splice(heights, p, h), a + 1, i)) ==
              if a == p then At(nodes, FirstTaller(heights, u + 1, i))
              else
                var a0 := if a < p then a else a - 1;
                if i < h && a0 == u then n else At(nodes, FirstTaller(heights, a0 + 1, i))
    {
      var a0 := if a < p then a else if a == p then u else a - 1;
      var target := FirstTaller(heights, a0 + 1, i);
      SplicedAt(nodes, p, n, target);
      if a < p {
        FirstTallerAfterSplice(heights, p, h, a + 1, i);
        if i < h { UpdateIsLast(heights, a, i, u, p - 1); }
      } else if a == p {
        FirstTallerIsFirst(heights, u + 1, i, target);
        FirstTallerIsFirst(heights, p, i, target);
        FirstTallerAfterSplice(heights, p, h, p, i);
      } else {
        FirstTallerAfterSplice(heights, p, h, a, i);
      }
    }
  }

  // ------------------------------------------------------------------ levels

  /** The positions that following the links of one level visits. */
  ghost function Level(heights: seq<nat>, from: nat, level: nat): (s: seq<nat>)
    requires from <= |heights|
    decreases |heights| - from
  {
    var r := FirstTaller(heights, from, level);
    if r == |heights| then [] else [r] + Level(heights, r + 1, level)
  }

  lemma {:induction false} LevelHasTheTallTowers(heights: seq<nat>, from: nat, level: nat)
    requires from <= |heights|
    ensures var s := Level(heights, from, level);
            && (forall i, j :: 0 <= i < j < |s| ==> s[i] < s[j])
            && (forall r :: r in s <==> from <= r < |heights| && heights[r] > level)
    decreases |heights| - from
  {
    var r := FirstTaller(heights, from, level);
    FirstTallerIsFirst(heights, from, level, r);
    if r < |heights| {
      LevelHasTheTallTowers(heights, r + 1, level);
      var rest := Level(heights, r + 1, level);
      assert Level(heights, from, level) == [r] + rest;
      forall j | 0 <= j < |rest| ensures r < rest[j] {
        assert rest[j] in rest;
      }
    }
  }
}
