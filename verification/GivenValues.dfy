/** What becomes of a value that is given for a path: nested, it is read back there, and in the
    configuration built from it the setting at that path has the value it stands for. */
module GivenValues {
  import opened Text
  import opened Schema
  import opened Nesting

  /** What a nested mapping holds at a path. */
  function ReadAt(nested: map<string, Raw>, q: Names): Option<Raw>
    requires q != []
    decreases q
  {
    if q[0] !in nested then None
    else if |q| == 1 then Some(nested[q[0]])
    else if nested[q[0]].RMap? then ReadAt(nested[q[0]].entries, q[1..])
    else None
  }

  lemma {:induction false} InsertedIsRead(nested: map<string, Raw>, q: Names, value: Raw)
    requires q != [] && Insert(nested, q, value).Some?
    ensures ReadAt(Insert(nested, q, value).value, q) == Some(value)
    decreases q
  {
    if |q| > 1 {
      var section := if q[0] in nested then nested[q[0]] else RMap(map[]);
      InsertedIsRead(section.entries, q[1..], value);
    }
  }

  /** A path that leads neither to nor through another leaves what is read there. */
  lemma {:induction false} OthersAreRead(nested: map<string, Raw>, q: Names, value: Raw, p: Names)
    requires q != [] && p != [] && Insert(nested, q, value).Some? && ReadAt(nested, p).Some?
    requires !(q <= p) && !(p <= q)
    ensures ReadAt(Insert(nested, q, value).value, p) == ReadAt(nested, p)
    decreases q
  {
    assert p == [p[0]] + p[1..] && q == [q[0]] + q[1..];
    if |q| > 1 && |p| > 1 && p[0] == q[0] {
      OthersAreRead(nested[q[0]].entries, q[1..], value, p[1..]);
    }
  }

  /** No path leads through a value that is no mapping. */
  lemma {:induction false} NothingInside(nested: map<string, Raw>, q: Names, value: Raw, p: Names)
    requires p != [] && p < q && ReadAt(nested, p).Some? && !ReadAt(nested, p).value.RMap?
    ensures Insert(nested, q, value).None?
    decreases q
  {
    assert q[0] == p[0];
    if |p| > 1 {
      assert p[1..] < q[1..];
      NothingInside(nested[q[0]].entries, q[1..], value, p[1..]);
    }
  }

  /** No other value is given at or above the path of entry i, nor below it when the entry is a
      mapping itself. */
  predicate GivenAlone(entries: seq<Entry>, i: nat)
    requires i < |entries|
  {
    forall k :: 0 <= k < |entries| && k != i ==>
      !(entries[k].path <= entries[i].path) && (entries[i].path <= entries[k].path ==> !entries[i].value.RMap?)
  }

  /** The same for the entries that come later. */
  predicate NothingLater(entries: seq<Entry>, i: nat)
    requires i < |entries|
  {
    forall k :: i < k < |entries| ==>
      !(entries[k].path <= entries[i].path) && (entries[i].path <= entries[k].path ==> !entries[i].value.RMap?)
  }

  /** When all entries are nested, one that is left alone is read back. */
  lemma {:induction false} GivenIsRead(entries: seq<Entry>, i: nat)
    requires Named(entries) && i < |entries| && NothingLater(entries, i) && NestAll(entries).Some?
    ensures ReadAt(NestAll(entries).value, entries[i].path) == Some(entries[i].value)
  {
    var n: nat := |entries| - 1;
    var front, last := entries[..n], entries[n];
    var before := NestAll(front).value;
    if i == n {
      InsertedIsRead(before, last.path, last.value);
    } else {
      assert front[i] == entries[i] && forall k :: 0 <= k < n ==> front[k] == entries[k];
      GivenIsRead(front, i);
      if entries[i].path <= last.path {
        NothingInside(before, last.path, last.value, entries[i].path);
      } else {
        OthersAreRead(before, last.path, last.value, entries[i].path);
      }
    }
  }

  /** Following the path, the built value has what the raw value stands for. */
  predicate FoundAt(t: Type, v: Value, q: Names, raw: Raw)
    decreases |q|, t
  {
    if q == [] then Represents(t, raw, v)
    else
      match t
      case TOptional(inner) => FoundAt(inner, v, q, raw)
      case TSection(fields) =>
        && Declared(fields, q[0]) && v.VSection? && q[0] in v.arguments
        && FoundAt(TypeOf(fields, q[0]), v.arguments[q[0]], q[1..], raw)
      case _ => false
  }

  /** What is read at a path of the mapping arrives at that path of the value it stands for. */
  lemma {:induction false} ReadArrives(t: Type, nested: map<string, Raw>, v: Value, q: Names)
    requires q != [] && Represents(t, RMap(nested), v) && ReadAt(nested, q).Some?
    ensures FoundAt(t, v, q, ReadAt(nested, q).value)
    decreases |q|, t
  {
    match t
    case TOptional(inner) => ReadArrives(inner, nested, v, q);
    case TSection(fields) =>
      if |q| > 1 {
        ReadArrives(TypeOf(fields, q[0]), nested[q[0]].entries, v.arguments[q[0]], q[1..]);
      }
    case _ =>
  }
}
