/** Nesting does not depend on the order of the paths, it undoes flattening, and with both the
    configuration that is exported is the one that is built again. */
module RoundTrip {
  import opened Text
  import opened Schema
  import opened Building
  import opened Nesting

  // ------------------------------------------------------------------ the nested tree

  lemma TreeAt(values: Values, depth: nat, n: string)
    requires Bounded(values, depth)
    ensures n in Tree(values, depth) <==> exists q :: q in values && q[0] == n
    ensures n in Tree(values, depth) ==>
      (Tree(values, depth)[n] ==
       if [n] in values then values[[n]] else RMap(Tree(BelowOf(values, n, depth), depth - 1)))
  {
    assert n in Tree(values, depth) <==> n in (set q | q in values.Keys :: q[0]);
  }

  lemma BelowOther(values: Values, q: Names, value: Raw, n: string)
    requires q != [] && q[0] != n
    ensures ValuesBelow(values[q := value], n) == ValuesBelow(values, n)
  {
    assert forall r: Names :: ([n] + r)[0] == n;
  }

  lemma BelowSame(values: Values, q: Names, value: Raw)
    requires q != []
    ensures ValuesBelow(values[q := value], q[0]) == ValuesBelow(values, q[0])[q[1..] := value]
  {
    assert [q[0]] + q[1..] == q;
    assert forall r: Names :: ([q[0]] + r)[1..] == r;
  }

  lemma {:induction false} TreeEmpty(depth: nat)
    ensures Tree(map[], depth) == map[]
  {
  }

  lemma NothingBelow(values: Values, n: string)
    requires forall q :: q in values ==> q != [] && q[0] != n
    ensures ValuesBelow(values, n) == map[]
  {
    assert forall r: Names :: ([n] + r)[0] == n;
  }

  lemma BelowBounded(values: Values, depth: nat, n: string)
    requires Bounded(values, depth) && [n] !in values && depth > 0
    ensures Bounded(ValuesBelow(values, n), depth - 1)
  {
    assert [n] + [] == [n];
  }

  lemma HeadNotIn(values: Values, q: Names, value: Raw)
    requires 2 <= |q| && PrefixFree(values[q := value])
    ensures [q[0]] !in values && [q[0]] != q
  {
    var grown := values[q := value];
    assert q in grown && [q[0]] <= q;
    var head := [q[0]];
    assert head in values ==> head in grown;
  }

  lemma RestNotIn(values: Values, q: Names)
    requires q != [] && q !in values
    ensures q[1..] !in ValuesBelow(values, q[0])
  {
    assert [q[0]] + q[1..] == q;
  }

  /** The branch a longer path goes into holds no path of its own there. */
  lemma BranchOpen(values: Values, depth: nat, q: Names, value: Raw, below: Values, r: Names)
    requires Bounded(values, depth) && 2 <= |q| <= depth && q !in values
    requires PrefixFree(values[q := value]) && below == ValuesBelow(values, q[0]) && r == q[1..]
    ensures [q[0]] !in values && [q[0]] != q
    ensures Bounded(below, depth - 1) && r !in below && PrefixFree(below[r := value])
    ensures ValuesBelow(values[q := value], q[0]) == below[r := value]
  {
    HeadNotIn(values, q, value);
    BelowBounded(values, depth, q[0]);
    BelowSame(values, q, value);
    BelowPrefixFree(values[q := value], q[0]);
    RestNotIn(values, q);
  }

  /** A map changed at one key only. */
  lemma {:induction false} InsertStep(before: map<string, Raw>, q: Names, rest: Names, value: Raw,
          inner: map<string, Raw>, after: map<string, Raw>)
    requires q != [] && q[0] in after && rest == q[1..]
    requires forall k :: k != q[0] ==> (k in before <==> k in after) && (k in before ==> before[k] == after[k])
    requires |q| == 1 ==> after[q[0]] == value
    requires |q| > 1 ==>
      && (q[0] in before ==> before[q[0]].RMap?)
      && Insert(Branch(before, q[0]), rest, value) == Some(inner) && after[q[0]] == RMap(inner)
    ensures Insert(before, q, value) == Some(after)
  {
    assert before[q[0] := after[q[0]]] == after;
  }

  /** The mapping at a section name, empty when there is none. */
  function Branch(nested: map<string, Raw>, n: string): map<string, Raw> {
    if n in nested && nested[n].RMap? then nested[n].entries else map[]
  }

  lemma {:induction false} BranchOfTree(values: Values, depth: nat, n: string, below: Values, d: nat)
    requires Bounded(values, depth) && [n] !in values && depth == d + 1
    requires below == ValuesBelow(values, n) && Bounded(below, d)
    ensures n in Tree(values, depth) ==> Tree(values, depth)[n].RMap?
    ensures Branch(Tree(values, depth), n) == Tree(below, d)
    ensures (exists q :: q in values && q[0] == n) ==>
      n in Tree(values, depth) && Tree(values, depth)[n] == RMap(Tree(below, d))
  {
    TreeAt(values, depth, n);
    if n !in Tree(values, depth) {
      NothingBelow(values, n);
      TreeEmpty(d);
    }
  }

  lemma {:induction false} InsertShort(values: Values, depth: nat, q: Names, value: Raw)
    requires Bounded(values, depth) && |q| == 1 <= depth
    ensures Insert(Tree(values, depth), q, value) == Some(Tree(values[q := value], depth))
  {
    var grown := values[q := value];
    assert q in grown && q == [q[0]];
    TreeAt(grown, depth, q[0]);
    InsertElsewhere(values, depth, q, value);
    InsertStep(Tree(values, depth), q, [], value, map[], Tree(grown, depth));
  }

  lemma {:induction false} InsertLong(values: Values, depth: nat, q: Names, value: Raw)
    requires Bounded(values, depth) && 2 <= |q| <= depth && q !in values
    requires PrefixFree(values[q := value])
    ensures Insert(Tree(values, depth), q, value) == Some(Tree(values[q := value], depth))
    decreases depth, 0
  {
    var grown := values[q := value];
    var below, d: nat, r: Names := ValuesBelow(values, q[0]), depth - 1, q[1..];
    BranchOpen(values, depth, q, value, below, r);
    assert q in grown;
    InsertTree(below, d, r, value);
    var inner := Tree(below[r := value], d);
    assert Insert(Tree(below, d), r, value) == Some(inner);
    BranchOfTree(values, depth, q[0], below, d);
    BranchOfTree(grown, depth, q[0], below[r := value], d);
    InsertElsewhere(values, depth, q, value);
    InsertStep(Tree(values, depth), q, r, value, inner, Tree(grown, depth));
  }

  /** Inserting a path beside the others gives the tree they all stand for. */
  lemma {:induction false} InsertTree(values: Values, depth: nat, q: Names, value: Raw)
    requires Bounded(values, depth) && 1 <= |q| <= depth && q !in values
    requires PrefixFree(values[q := value])
    ensures Insert(Tree(values, depth), q, value) == Some(Tree(values[q := value], depth))
    decreases depth, 1
  {
    if |q| == 1 {
      InsertShort(values, depth, q, value);
    } else {
      InsertLong(values, depth, q, value);
    }
  }

  lemma InsertElsewhere(values: Values, depth: nat, q: Names, value: Raw)
    requires Bounded(values, depth) && 1 <= |q| <= depth
    ensures var before, after := Tree(values, depth), Tree(values[q := value], depth);
      forall k :: k != q[0] ==> (k in before <==> k in after) && (k in before ==> before[k] == after[k])
  {
    forall k | k != q[0]
      ensures var before, after := Tree(values, depth), Tree(values[q := value], depth);
        (k in before <==> k in after) && (k in before ==> before[k] == after[k])
    {
      OtherBranch(values, depth, q, value, k);
    }
  }

  lemma BelowPrefixFree(values: Values, n: string)
    requires PrefixFree(values)
    ensures PrefixFree(ValuesBelow(values, n))
  {
    forall p, q | p in ValuesBelow(values, n) && q in ValuesBelow(values, n) && p <= q
      ensures p == q
    {
      assert [n] + p <= [n] + q;
      assert ([n] + p)[1..] == p && ([n] + q)[1..] == q;
    }
  }

  lemma OtherBranch(values: Values, depth: nat, q: Names, value: Raw, k: string)
    requires Bounded(values, depth) && 1 <= |q| <= depth && k != q[0]
    ensures var before, after := Tree(values, depth), Tree(values[q := value], depth);
      (k in before <==> k in after) && (k in before ==> before[k] == after[k])
  {
    TreeAt(values, depth, k);
    TreeAt(values[q := value], depth, k);
    BelowOther(values, q, value, k);
    assert [k] != q;
  }

  // ------------------------------------------------------------------ order

  function ValuesOf(entries: seq<Entry>): Values {
    if entries == [] then map[]
    else ValuesOf(entries[..|entries| - 1])[entries[|entries| - 1].path := entries[|entries| - 1].value]
  }

  /** Paths are not repeated, and none leads through another. */
  predicate Separate(entries: seq<Entry>) {
    forall i, j :: 0 <= i < |entries| && 0 <= j < |entries| && entries[i].path <= entries[j].path ==> i == j
  }

  lemma {:induction false} PathsAre(entries: seq<Entry>, q: Names)
    ensures q in ValuesOf(entries) <==> exists i :: 0 <= i < |entries| && entries[i].path == q
  {
    if entries != [] {
      var front, n := entries[..|entries| - 1], |entries| - 1;
      PathsAre(front, q);
      assert forall i :: 0 <= i < n ==> front[i] == entries[i];
    }
  }

  lemma {:induction false} ValueIs(entries: seq<Entry>, i: nat)
    requires Separate(entries) && i < |entries|
    ensures entries[i].path in ValuesOf(entries) && ValuesOf(entries)[entries[i].path] == entries[i].value
  {
    var n := |entries| - 1;
    if i < n {
      ValueIs(entries[..n], i);
      assert entries[..n][i] == entries[i];
      assert !(entries[n].path <= entries[i].path);
    }
  }

  lemma {:induction false} ValuesAre(entries: seq<Entry>)
    requires Separate(entries)
    ensures forall q :: q in ValuesOf(entries) <==> exists i :: 0 <= i < |entries| && entries[i].path == q
    ensures forall i :: 0 <= i < |entries| ==>
      entries[i].path in ValuesOf(entries) && ValuesOf(entries)[entries[i].path] == entries[i].value
  {
    forall q ensures q in ValuesOf(entries) <==> exists i :: 0 <= i < |entries| && entries[i].path == q {
      PathsAre(entries, q);
    }
    forall i | 0 <= i < |entries|
      ensures entries[i].path in ValuesOf(entries) && ValuesOf(entries)[entries[i].path] == entries[i].value
    {
      ValueIs(entries, i);
    }
  }

  lemma {:induction false} SeparateFront(entries: seq<Entry>, front: seq<Entry>, last: Entry)
    requires entries == front + [last] && Separate(entries)
    ensures Separate(front) && ValuesOf(entries) == ValuesOf(front)[last.path := last.value]
    ensures last.path !in ValuesOf(front)
  {
    var n := |front|;
    assert entries[..|entries| - 1] == front && entries[n] == last;
    assert forall i :: 0 <= i < n ==> front[i] == entries[i];
    PathsAre(front, last.path);
    assert forall i :: 0 <= i < n ==> entries[i].path != entries[n].path;
  }

  lemma {:induction false} SeparatePrefixFree(entries: seq<Entry>)
    requires Separate(entries)
    ensures PrefixFree(ValuesOf(entries))
  {
    forall p, q | p in ValuesOf(entries) && q in ValuesOf(entries) && p <= q
      ensures p == q
    {
      PathsAre(entries, p);
      PathsAre(entries, q);
      var i :| 0 <= i < |entries| && entries[i].path == p;
      var j :| 0 <= j < |entries| && entries[j].path == q;
    }
  }

  lemma {:induction false} LastInTree(values: Values, last: Entry, depth: nat, all: Values)
    requires all == values[last.path := last.value] && last.path !in values && last.path != []
    requires Bounded(all, depth) && PrefixFree(all)
    ensures Bounded(values, depth)
    ensures Insert(Tree(values, depth), last.path, last.value) == Some(Tree(all, depth))
  {
    assert forall q :: q in values ==> q in all;
    assert last.path in all;
    InsertTree(values, depth, last.path, last.value);
  }

  lemma {:induction false} LastNested(entries: seq<Entry>, front: seq<Entry>, last: Entry, depth: nat)
    requires entries == front + [last] && Separate(entries) && last.path != [] && Bounded(ValuesOf(entries), depth)
    ensures Separate(front) && Bounded(ValuesOf(front), depth)
    ensures Insert(Tree(ValuesOf(front), depth), last.path, last.value) == Some(Tree(ValuesOf(entries), depth))
  {
    SeparateFront(entries, front, last);
    SeparatePrefixFree(entries);
    LastInTree(ValuesOf(front), last, depth, ValuesOf(entries));
  }

  lemma {:induction false} NestStep(entries: seq<Entry>, front: seq<Entry>, last: Entry, before: map<string,
          Raw>, after: map<string, Raw>)
    requires Named(entries) && Named(front) && last.path != [] && entries == front + [last]
    requires NestAll(front) == Some(before) && Insert(before, last.path, last.value) == Some(after)
    ensures NestAll(entries) == Some(after)
  {
    assert entries[..|entries| - 1] == front;
  }

  lemma NamedFront(entries: seq<Entry>, front: seq<Entry>, last: Entry)
    requires Named(entries) && entries == front + [last]
    ensures Named(front) && last.path != []
  {
    assert entries[|front|] == last && forall i :: 0 <= i < |front| ==> front[i] == entries[i];
  }

  /** Nesting separate paths gives the tree they stand for. */
  lemma {:induction false} NestIsTree(entries: seq<Entry>, depth: nat)
    requires Named(entries) && Separate(entries) && Bounded(ValuesOf(entries), depth)
    ensures NestAll(entries) == Some(Tree(ValuesOf(entries), depth))
  {
    if entries == [] {
      TreeEmpty(depth);
    } else {
      var front, last := entries[..|entries| - 1], entries[|entries| - 1];
      assert entries == front + [last];
      NamedFront(entries, front, last);
      LastNested(entries, front, last, depth);
      NestIsTree(front, depth);
      NestStep(entries, front, last, Tree(ValuesOf(front), depth), Tree(ValuesOf(entries), depth));
    }
  }

  /** Separate paths nest the same in every order. */
  lemma {:induction false} NestIgnoresOrder(a: seq<Entry>, b: seq<Entry>, depth: nat)
    requires Named(a) && Named(b) && Separate(a) && Separate(b)
    requires ValuesOf(a) == ValuesOf(b) && Bounded(ValuesOf(a), depth)
    ensures NestAll(a) == NestAll(b) && NestAll(a).Some?
  {
    NestIsTree(a, depth);
    NestIsTree(b, depth);
  }

  lemma SetTwice(nested: map<string, Raw>, n: string, first: Raw, second: Raw)
    ensures nested[n := first][n := second] == nested[n := second]
  {
  }

  lemma {:induction false} InsertInto(nested: map<string, Raw>, n: string, rest: Names, q: Names, value: Raw)
    requires rest != [] && q == [n] + rest
    ensures Insert(nested, q, value) ==
      if n in nested && !nested[n].RMap? then None
      else
        var inner := Insert(Branch(nested, n), rest, value);
        if inner.None? then None else Some(nested[n := RMap(inner.value)])
  {
    assert q[1..] == rest;
  }

  /** What is at p once a value at p, x, is followed by one further down, at p + rest. */
  function Deepened(x: Raw, rest: Names, y: Raw): Option<Raw>
    requires rest != []
  {
    if x.RMap? && Insert(x.entries, rest, y).Some? then Some(RMap(Insert(x.entries, rest, y).value)) else None
  }

  lemma {:induction false} InsertThroughValue(nested: map<string, Raw>, n: string, rest: Names, x: Raw, y: Raw)
    requires rest != []
    ensures Insert(nested[n := x], [n] + rest, y) ==
      if Deepened(x, rest, y).Some? then Some(nested[n := Deepened(x, rest, y).value]) else None
  {
    InsertInto(nested[n := x], n, rest, [n] + rest, y);
    if Deepened(x, rest, y).Some? {
      SetTwice(nested, n, x, Deepened(x, rest, y).value);
    }
  }

  /** A value at p, and then one at a path through it. */
  lemma {:induction false} InsertThrough(nested: map<string, Raw>, p: Names, rest: Names, x: Raw, y: Raw,
          after: map<string, Raw>)
    requires p != [] && rest != [] && Insert(nested, p, x) == Some(after)
    ensures Insert(after, p + rest, y) ==
      if Deepened(x, rest, y).Some? then Insert(nested, p, Deepened(x, rest, y).value) else None
    decreases |p|
  {
    var n, t := p[0], p[1..];
    if |p| == 1 {
      assert p + rest == [n] + rest;
      InsertThroughValue(nested, n, rest, x, y);
    } else {
      var inner := Insert(Branch(nested, n), t, x).value;
      InsertInto(nested, n, t, p, x);
      InsertThrough(Branch(nested, n), t, rest, x, y, inner);
      assert p + rest == [n] + (t + rest);
      InsertInto(after, n, t + rest, p + rest, y);
      InsertedThrough(nested, n, t, p, x, y, rest, inner);
    }
  }

  lemma {:induction false} InsertedThrough(nested: map<string, Raw>, n: string, t: Names, p: Names, x: Raw,
          y: Raw, rest: Names, inner: map<string, Raw>)
    requires rest != [] && t != [] && p == [n] + t && (n in nested ==> nested[n].RMap?)
    ensures Deepened(x, rest, y).Some? && Insert(Branch(nested, n), t, Deepened(x, rest, y).value).Some? ==>
      Insert(nested, p, Deepened(x, rest, y).value)
      == Some(nested[n := RMap(inner)][n := RMap(Insert(Branch(nested, n), t, Deepened(x, rest, y).value).value)])
    ensures Deepened(x, rest, y).Some? && Insert(Branch(nested, n), t, Deepened(x, rest, y).value).None? ==>
      Insert(nested, p, Deepened(x, rest, y).value).None?
  {
    if Deepened(x, rest, y).Some? {
      var value := Deepened(x, rest, y).value;
      InsertInto(nested, n, t, p, value);
      if Insert(Branch(nested, n), t, value).Some? {
        SetTwice(nested, n, RMap(inner), RMap(Insert(Branch(nested, n), t, value).value));
      }
    }
  }

  /** A value further down, and then one at p, which replaces what is there. */
  lemma {:induction false} InsertOver(nested: map<string, Raw>, p: Names, rest: Names, x: Raw, y: Raw,
          after: map<string, Raw>)
    requires p != [] && rest != [] && Insert(nested, p + rest, y) == Some(after)
    ensures Insert(after, p, x) == Insert(nested, p, x)
    decreases |p|
  {
    var n, t := p[0], p[1..];
    assert p + rest == [n] + (t + rest);
    InsertInto(nested, n, t + rest, p + rest, y);
    var inner := Insert(Branch(nested, n), t + rest, y).value;
    if |p| == 1 {
      SetTwice(nested, n, RMap(inner), x);
    } else {
      InsertOver(Branch(nested, n), t, rest, x, y, inner);
      InsertInto(nested, n, t, p, x);
      InsertInto(after, n, t, p, x);
      var over := Insert(Branch(nested, n), t, x);
      if over.Some? {
        SetTwice(nested, n, RMap(inner), RMap(over.value));
      }
    }
  }

  lemma {:induction false} InsertFresh(q: Names, y: Raw)
    requires q != []
    ensures Insert(map[], q, y).Some?
  {
    if |q| > 1 {
      InsertFresh(q[1..], y);
    }
  }

  /** When one path leads through another, the order decides: the longer path second is refused
      exactly unless it leads on inside a mapping; the longer path first is lost. */
  lemma NestMindsOrder(p: Names, rest: Names, x: Raw, y: Raw)
    requires p != [] && rest != []
    ensures NestAll([Entry(p, x), Entry(p + rest, y)]) ==
      if Deepened(x, rest, y).Some? then NestAll([Entry(p, Deepened(x, rest, y).value)]) else None
    ensures NestAll([Entry(p + rest, y), Entry(p, x)]) == NestAll([Entry(p, x)])
  {
    NestTwo(Entry(p, x), Entry(p + rest, y));
    NestTwo(Entry(p + rest, y), Entry(p, x));
    InsertFresh(p, x);
    InsertFresh(p + rest, y);
    InsertThrough(map[], p, rest, x, y, Insert(map[], p, x).value);
    InsertOver(map[], p, rest, x, y, Insert(map[], p + rest, y).value);
    if Deepened(x, rest, y).Some? {
      NestOne(Entry(p, Deepened(x, rest, y).value));
    }
  }

  lemma NestOne(e: Entry)
    requires e.path != []
    ensures NestAll([e]) == Insert(map[], e.path, e.value)
  {
    assert [e][..0] == [];
  }

  lemma NestTwo(first: Entry, second: Entry)
    requires first.path != [] && second.path != []
    ensures NestAll([first]) == Insert(map[], first.path, first.value) && NestAll([second]) == Insert(map[], second.path, second.value)
    ensures NestAll([first, second]) ==
      var before := Insert(map[], first.path, first.value);
      if before.None? then None else Insert(before.value, second.path, second.value)
  {
    NestOne(first);
    NestOne(second);
    assert [first, second][..1] == [first];
  }

  // ------------------------------------------------------------------ nesting undoes flattening

  /** A mapping without its section mappings that hold no setting; none when nothing is left. */
  function Pruned(t: Type, raw: Raw): Option<Raw>
    decreases raw
  {
    if !IsSection(t, raw) then Some(raw)
    else
      var kept := PrunedEntries(t, raw);
      if kept == map[] then None else Some(RMap(kept))
  }

  function PrunedEntries(t: Type, raw: Raw): map<string, Raw>
    requires IsSection(t, raw)
    decreases raw, 0
  {
    map n | n in raw.entries && Declared(t.fields, n) && Pruned(TypeOf(t.fields, n), raw.entries[n]).Some?
      :: Pruned(TypeOf(t.fields, n), raw.entries[n]).value
  }

  predicate HasLeaf(t: Type, raw: Raw) {
    Pruned(t, raw).Some?
  }

  /** The leaf a mapping that is not pruned away holds. */
  lemma {:induction false} SomeLeaf(t: Type, raw: Raw) returns (q: Names)
    requires HasLeaf(t, raw)
    ensures LeafAt(t, raw, q).Some?
    decreases raw
  {
    if !IsSection(t, raw) {
      q := [];
    } else {
      var kept := PrunedEntries(t, raw);
      assert kept.Keys != {} by {
        assert kept != map[];
      }
      var n :| n in kept;
      var r := SomeLeaf(TypeOf(t.fields, n), raw.entries[n]);
      q := [n] + r;
      assert q[1..] == r;
    }
  }

  lemma {:induction false} LeafKept(t: Type, raw: Raw, q: Names)
    requires LeafAt(t, raw, q).Some?
    ensures HasLeaf(t, raw)
    decreases q
  {
    if IsSection(t, raw) {
      LeafKept(TypeOf(t.fields, q[0]), raw.entries[q[0]], q[1..]);
      assert q[0] in PrunedEntries(t, raw);
    }
  }

  lemma {:induction false} LeavesPrefixFree(t: Type, raw: Raw, p: Names, q: Names)
    requires LeafAt(t, raw, p).Some? && LeafAt(t, raw, q).Some? && p <= q
    ensures p == q
    decreases p
  {
    if IsSection(t, raw) {
      LeavesPrefixFree(TypeOf(t.fields, p[0]), raw.entries[p[0]], p[1..], q[1..]);
    }
  }

  lemma LeavesBelow(values: Values, t: Type, raw: Raw, n: string)
    requires IsSection(t, raw) && AreLeaves(values, t, raw) && n in raw.entries && Declared(t.fields, n)
    ensures AreLeaves(ValuesBelow(values, n), TypeOf(t.fields, n), raw.entries[n])
  {
    forall q: Names
      ensures LeafAt(t, raw, [n] + q) == LeafAt(TypeOf(t.fields, n), raw.entries[n], q)
    {
      assert ([n] + q)[1..] == q;
    }
  }

  /** Nesting the leaves of a mapping gives the mapping back, up to empty section mappings. */
  lemma {:induction false} TreeOfLeaves(values: Values, t: Type, raw: Raw, depth: nat)
    requires IsSection(t, raw) && AreLeaves(values, t, raw) && Bounded(values, depth)
    ensures Tree(values, depth) == PrunedEntries(t, raw)
    decreases raw
  {
    forall n
      ensures n in Tree(values, depth) <==> n in PrunedEntries(t, raw)
      ensures n in Tree(values, depth) ==> Tree(values, depth)[n] == PrunedEntries(t, raw)[n]
    {
      BranchOfLeaves(values, t, raw, depth, n);
    }
  }

  lemma {:induction false} BranchOfLeaves(values: Values, t: Type, raw: Raw, depth: nat, n: string)
    requires IsSection(t, raw) && AreLeaves(values, t, raw) && Bounded(values, depth)
    ensures n in Tree(values, depth) <==> n in PrunedEntries(t, raw)
    ensures n in Tree(values, depth) ==> Tree(values, depth)[n] == PrunedEntries(t, raw)[n]
    decreases raw, 0
  {
    TreeAt(values, depth, n);
    if n in Tree(values, depth) {
      var q :| q in values && q[0] == n;
      assert LeafAt(t, raw, q).Some?;
      LeafKept(TypeOf(t.fields, n), raw.entries[n], q[1..]);
    }
    if n in PrunedEntries(t, raw) {
      var below, inner := ValuesBelow(values, n), TypeOf(t.fields, n);
      var r := SomeLeaf(inner, raw.entries[n]);
      LeavesBelow(values, t, raw, n);
      assert r in below && [n] + r in values && ([n] + r)[0] == n;
      assert [n] + [] == [n];
      if IsSection(inner, raw.entries[n]) {
        assert [] !in below;
        var d: nat := depth - 1;
        BelowBounded(values, depth, n);
        BranchOfTree(values, depth, n, below, d);
        TreeOfLeaves(below, inner, raw.entries[n], d);
      } else {
        assert [] in below && below[[]] == values[[n]];
      }
    }
  }

  // ------------------------------------------------------------------ export, then build

  /** Every section has a field. */
  predicate Inhabited(t: Type) {
    t.TSection? ==> t.fields != [] && forall i :: 0 <= i < |t.fields| ==> Inhabited(t.fields[i].typ)
  }

  lemma {:induction false} ExportKept(t: Type, v: Value)
    requires WellFormed(t) && Inhabited(t) && HasType(t, v)
    ensures Pruned(t, Export(v)) == Some(Export(v)) && KeysKnown(t, Export(v))
    decreases v
  {
    if t.TSection? {
      var raw := Export(v);
      forall n | n in raw.entries
        ensures Declared(t.fields, n) && KeysKnown(TypeOf(t.fields, n), raw.entries[n])
        ensures Pruned(TypeOf(t.fields, n), raw.entries[n]) == Some(raw.entries[n])
      {
        assert TypeOf(t.fields, n) == t.fields[FieldIndex(t.fields, n)].typ;
        ExportKept(TypeOf(t.fields, n), v.arguments[n]);
      }
      assert PrunedEntries(t, raw) == raw.entries;
      assert t.fields[0].name in raw.entries;
    }
  }

  /** The entries list the leaves of a mapping, in some order. */
  ghost predicate Enumerates(entries: seq<Entry>, t: Type, raw: Raw) {
    && (forall i, j :: 0 <= i < j < |entries| ==> entries[i].path != entries[j].path)
    && (forall i :: 0 <= i < |entries| ==> LeafAt(t, raw, entries[i].path) == Some(entries[i].value))
    && forall q :: LeafAt(t, raw, q).Some? ==> exists i :: 0 <= i < |entries| && entries[i].path == q
  }

  lemma {:induction false} EnumeratedLeaves(entries: seq<Entry>, t: Type, raw: Raw)
    requires Enumerates(entries, t, raw) && IsSection(t, raw)
    ensures Named(entries) && Separate(entries) && AreLeaves(ValuesOf(entries), t, raw)
  {
    forall i | 0 <= i < |entries|
      ensures entries[i].path != []
    {
      assert LeafAt(t, raw, entries[i].path).Some?;
    }
    forall i, j | 0 <= i < |entries| && 0 <= j < |entries| && entries[i].path <= entries[j].path
      ensures i == j
    {
      LeavesPrefixFree(t, raw, entries[i].path, entries[j].path);
    }
    ValuesAre(entries);
  }

  lemma {:induction false} Longest(entries: seq<Entry>) returns (depth: nat)
    ensures forall i :: 0 <= i < |entries| ==> |entries[i].path| <= depth
  {
    depth := 0;
    if entries != [] {
      var front := entries[..|entries| - 1];
      var before := Longest(front);
      depth := before + |entries[|entries| - 1].path|;
      assert forall i :: 0 <= i < |front| ==> front[i] == entries[i];
    }
  }

  /** Flattened in any order and nested again, a mapping is what it was, up to empty sections. */
  lemma {:induction false} NestUndoesFlatten(entries: seq<Entry>, t: Type, raw: Raw)
    requires IsSection(t, raw) && Enumerates(entries, t, raw)
    ensures Named(entries) && NestAll(entries) == Some(PrunedEntries(t, raw))
  {
    EnumeratedLeaves(entries, t, raw);
    var depth := Longest(entries);
    ValuesAre(entries);
    NestIsTree(entries, depth);
    TreeOfLeaves(ValuesOf(entries), t, raw, depth);
  }

  /** What a configuration exports, flattened in any order, nested and built, is that
      configuration. */
  lemma {:induction false} ExportRoundTrip(t: Type, v: Value, entries: seq<Entry>)
    requires t.TSection? && WellFormed(t) && Inhabited(t) && HasType(t, v)
    requires Enumerates(entries, t, Export(v))
    ensures Named(entries) && NestAll(entries).Some?
    ensures Convert(t, RMap(NestAll(entries).value)) == Built(v, [])
  {
    ExportKept(t, v);
    NestUndoesFlatten(entries, t, Export(v));
    ConvertExport(t, v);
  }
}
