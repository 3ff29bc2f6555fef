/** Setting values addressed by path: flattening a mapping into them, and nesting them back. */
module Nesting {
  import opened Text
  import opened Schema

  /** The section names and the name of a setting. */
  type Names = seq<string>
  type Values = map<Names, Raw>

  predicate IsSection(t: Type, raw: Raw) {
    t.TSection? && raw.RMap?
  }

  // ------------------------------------------------------------------ flattening

  /** The value a path leads to: only a mapping of a section type is entered. */
  function LeafAt(t: Type, raw: Raw, q: Names): Option<Raw>
    decreases q
  {
    if IsSection(t, raw) then
      if q != [] && Declared(t.fields, q[0]) && q[0] in raw.entries
      then LeafAt(TypeOf(t.fields, q[0]), raw.entries[q[0]], q[1..]) else None
    else if q == [] then Some(raw) else None
  }

  ghost predicate AreLeaves(values: Values, t: Type, raw: Raw) {
    forall q :: (q in values <==> LeafAt(t, raw, q).Some?) && (q in values ==> LeafAt(t, raw, q) == Some(values[q]))
  }

  /** No section holds a key its type does not declare. */
  predicate KeysKnown(t: Type, raw: Raw)
    decreases raw
  {
    IsSection(t, raw) ==>
      forall n :: n in raw.entries ==> Declared(t.fields, n) && KeysKnown(TypeOf(t.fields, n), raw.entries[n])
  }

  function InSection(name: string, values: Values): (r: Values)
    ensures forall q :: q in r <==> q != [] && q[0] == name && q[1..] in values
    ensures forall q :: q in r ==> r[q] == values[q[1..]]
  {
    var names := set q | q in values.Keys :: [name] + q;
    assert forall q :: q in values.Keys ==> ([name] + q)[0] == name && ([name] + q)[1..] == q;
    assert forall q: Names :: q != [] && q[0] == name ==> [name] + q[1..] == q;
    map q | q in names :: values[q[1..]]
  }

  /** `_flatten`, merging the values of each section in the order its keys come. */
  method Flatten(fields: seq<Field>, raw: Raw) returns (r: Option<Values>)
    ensures r.None? <==> !raw.RMap? || !KeysKnown(TSection(fields), raw)
    ensures r.Some? ==> AreLeaves(r.value, TSection(fields), raw)
    decreases raw
  {
    if !raw.RMap? || exists n :: n in raw.entries.Keys && !Declared(fields, n) {
      return None;
    }
    var values: Values := map[];
    var rest := raw.entries.Keys;
    while rest != {}
      invariant rest <= raw.entries.Keys
      invariant forall n :: n in raw.entries.Keys - rest ==> KeysKnown(TypeOf(fields, n), raw.entries[n])
      invariant forall q :: q in values <==>
        q != [] && q[0] in raw.entries.Keys - rest && LeafAt(TSection(fields), raw, q).Some?
      invariant forall q :: q in values ==> LeafAt(TSection(fields), raw, q) == Some(values[q])
    {
      var n :| n in rest;
      var t, value := TypeOf(fields, n), raw.entries[n];
      var below: Values := map[[] := value];
      if t.TSection? && value.RMap? {
        var flat := Flatten(t.fields, value);
        if flat.None? {
          return None;
        }
        below := flat.value;
      }
      assert AreLeaves(below, t, value);
      values := values + InSection(n, below);
      rest := rest - {n};
    }
    r := Some(values);
  }

  // ------------------------------------------------------------------ nesting

  /** Puts a value at a path; a path through a value is refused. */
  function Insert(nested: map<string, Raw>, q: Names, value: Raw): Option<map<string, Raw>>
    requires q != []
    decreases q
  {
    if |q| == 1 then Some(nested[q[0] := value])
    else
      var section := if q[0] in nested then nested[q[0]] else RMap(map[]);
      if !section.RMap? then None
      else
        var inner := Insert(section.entries, q[1..], value);
        if inner.None? then None else Some(nested[q[0] := RMap(inner.value)])
  }

  datatype Entry = Entry(path: Names, value: Raw)

  predicate Named(entries: seq<Entry>) {
    forall i :: 0 <= i < |entries| ==> entries[i].path != []
  }

  function NestAll(entries: seq<Entry>): Option<map<string, Raw>>
    requires Named(entries)
  {
    if entries == [] then Some(map[])
    else
      var last := entries[|entries| - 1];
      var before := NestAll(entries[..|entries| - 1]);
      if before.None? then None else Insert(before.value, last.path, last.value)
  }

  /** `_nested` */
  method Nest(entries: seq<Entry>) returns (r: Option<map<string, Raw>>)
    requires Named(entries)
    ensures r == NestAll(entries)
  {
    var nested: map<string, Raw> := map[];
    var i := 0;
    while i < |entries|
      invariant 0 <= i <= |entries|
      invariant NestAll(entries[..i]) == Some(nested)
    {
      assert entries[..i + 1][..i] == entries[..i];
      var step := Insert(nested, entries[i].path, entries[i].value);
      if step.None? {
        NoneStays(entries, i + 1);
        return None;
      }
      nested := step.value;
      i := i + 1;
    }
    assert entries[..i] == entries;
    r := Some(nested);
  }

  lemma {:induction false} NoneStays(entries: seq<Entry>, i: nat)
    requires Named(entries) && i <= |entries| && NestAll(entries[..i]).None?
    ensures NestAll(entries).None?
    decreases |entries|
  {
    if i == |entries| {
      assert entries[..i] == entries;
    } else {
      var front := entries[..|entries| - 1];
      assert front[..i] == entries[..i];
      NoneStays(front, i);
    }
  }

  // ------------------------------------------------------------------ independent of the order

  function ValuesBelow(values: Values, name: string): (r: Values)
    ensures forall q :: q in r <==> [name] + q in values
    ensures forall q :: q in r ==> r[q] == values[[name] + q]
  {
    var names := set q | q in values.Keys && q != [] && q[0] == name :: q[1..];
    assert forall q: Names :: q != [] && q[0] == name ==> [name] + q[1..] == q;
    assert forall q: Names :: ([name] + q)[0] == name && ([name] + q)[1..] == q;
    map q | q in names :: values[[name] + q]
  }

  predicate Bounded(values: Values, depth: nat) {
    forall q :: q in values ==> 1 <= |q| <= depth
  }

  /** The mapping a set of paths stands for, whatever their order. */
  ghost function Tree(values: Values, depth: nat): map<string, Raw>
    requires Bounded(values, depth)
    decreases depth
  {
    map n | n in (set q | q in values.Keys :: q[0]) ::
      if [n] in values then values[[n]] else RMap(Tree(BelowOf(values, n, depth), depth - 1))
  }

  ghost function BelowOf(values: Values, n: string, depth: nat): (r: Values)
    requires Bounded(values, depth) && [n] !in values && exists q :: q in values && q[0] == n
    ensures depth > 0 && Bounded(r, depth - 1) && r == ValuesBelow(values, n)
  {
    var r := ValuesBelow(values, n);
    assert forall q :: q in r ==> [n] + q in values && q != [] by {
      assert [n] + [] == [n];
    }
    r
  }

  /** No path leads through another. */
  predicate PrefixFree(values: Values) {
    forall p, q :: p in values && q in values && p <= q ==> p == q
  }
}
