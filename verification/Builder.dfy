/** The builder as it runs: one list of missing settings, filled by every section. */
module Builder {
  import opened Text
  import opened Schema
  import opened Building

  datatype Result = Ok(value: Value) | Err(at: Path, problem: Problem)

  /** What building a whole configuration ends with. */
  datatype Ending = Config(value: Value) | MissingSettings(paths: seq<Path>) | Refusal(at: Path, problem: Problem)

  function Under(path: Path, paths: seq<Path>): (r: seq<Path>)
    ensures |r| == |paths| && forall i :: 0 <= i < |r| ==> r[i] == path + paths[i]
  {
    seq(|paths|, i requires 0 <= i < |paths| => path + paths[i])
  }

  lemma UnderTop(paths: seq<Path>)
    ensures Under([], paths) == paths
  {
    assert forall i :: 0 <= i < |paths| ==> [] + paths[i] == paths[i];
  }

  lemma UnderStep(path: Path, step: Step, paths: seq<Path>)
    ensures Under(path + [step], paths) == Under(path, Prefixed(step, paths))
  {
    assert forall i :: 0 <= i < |paths| ==> path + [step] + paths[i] == path + ([step] + paths[i]);
  }

  lemma UnderJoined(path: Path, a: seq<Path>, b: seq<Path>)
    ensures Under(path, a + b) == Under(path, a) + Under(path, b)
  {
  }

  /** The report grew by what the conversion found missing, or the conversion was refused. */
  predicate Follows(o: Outcome, path: Path, before: seq<Path>, r: Result, after: seq<Path>) {
    match o
    case Built(v, missing) => r == Ok(v) && after == before + Under(path, missing)
    case Refused(at, problem) => r == Err(path + at, problem)
  }

  lemma FollowsBelow(o: Outcome, path: Path, step: Step, before: seq<Path>, r: Result, after: seq<Path>)
    requires Follows(o, path + [step], before, r, after)
    ensures Follows(Below(step, o), path, before, r, after)
  {
    match o
    case Built(_, missing) => UnderStep(path, step, missing);
    case Refused(at, _) => assert path + [step] + at == path + ([step] + at);
  }

  class ConfigBuilder {
    var missing: seq<Path>

    constructor ()
      ensures missing == []
    {
      missing := [];
    }

    method ConvertValue(t: Type, raw: Raw, path: Path) returns (r: Result)
      requires WellFormed(t)
      modifies this
      ensures Follows(Convert(t, raw), path, old(missing), r, missing)
      decreases raw, 1, t
    {
      match t
      case TOptional(inner) =>
        if raw.RNull? {
          r := Ok(VNone);
        } else {
          r := ConvertValue(inner, raw, path);
        }
      case TTuple(item) =>
        if raw.RNull? {
          r := Ok(VTuple([]));
        } else if !raw.RList? {
          r := Err(path, NotAList);
        } else {
          r := ConvertList(item, raw, path);
        }
      case TSection(fields) => r := BuildSection(fields, raw, path);
      case TEnum(members) =>
        var text := if raw.RNull? then Some("") else if raw.RStr? then Some(raw.text) else None;
        r := if text.Some? && text.value in members then Ok(VEnum(text.value)) else Err(path, NotAMember);
      case TInt => r := if raw.RInt? then Ok(VInt(raw.n)) else Err(path, NotAnInteger);
      case TBool => r := if raw.RBool? then Ok(VBool(raw.b)) else Err(path, NotABoolean);
      case TStr =>
        r := if raw.RNull? then Ok(VStr("")) else if raw.RStr? then Ok(VStr(raw.text)) else Err(path, NotAString);
    }

    method ConvertList(item: Type, raw: Raw, path: Path) returns (r: Result)
      requires WellFormed(item) && raw.RList?
      modifies this
      ensures Follows(ConvertItems(item, raw, |raw.items|), path, old(missing), r, missing)
      decreases raw, 0, 0
    {
      var items: seq<Value> := [];
      var i := 0;
      while i < |raw.items|
        invariant 0 <= i <= |raw.items|
        invariant Follows(ConvertItems(item, raw, i), path, old(missing), Ok(VTuple(items)), missing)
      {
        ghost var before := missing;
        r := ConvertValue(item, raw.items[i], path + [Index(i)]);
        AddItem(item, raw, i, path, old(missing), before, items, r, missing);
        if r.Err? {
          RefusedStays(item, raw, i + 1, |raw.items|);
          return;
        }
        items := items + [r.value];
        i := i + 1;
      }
      r := Ok(VTuple(items));
    }

    method BuildSection(fields: seq<Field>, raw: Raw, path: Path) returns (r: Result)
      requires WellFormed(TSection(fields))
      modifies this
      ensures Follows(Convert(TSection(fields), raw), path, old(missing), r, missing)
      decreases raw, 0, 2
    {
      if !raw.RMap? {
        return Err(path, NotAMapping);
      }
      if exists n :: n in raw.entries.Keys && !Declared(fields, n) {
        return Err(path, UnknownKeys);
      }
      r := BuildFields(fields, raw, path);
      if r.Ok? {
        AllPresent(fields, raw, |fields|);
        r := Ok(if |r.value.arguments| < |fields| then VNone else r.value);
      }
    }

    /** Field after field, until one is refused. */
    method BuildFields(fields: seq<Field>, raw: Raw, path: Path) returns (r: Result)
      requires raw.RMap? && WellFormed(TSection(fields))
      modifies this
      ensures Follows(ConvertFields(fields, raw, |fields|), path, old(missing), r, missing)
      ensures r.Ok? ==> r.value.VSection? && |r.value.arguments| == Present(fields, raw, |fields|)
      decreases raw, 0, 1
    {
      r := Ok(VSection(map[]));
      var i := 0;
      while i < |fields| && r.Ok?
        invariant 0 <= i <= |fields|
        invariant Follows(ConvertFields(fields, raw, i), path, old(missing), r, missing)
        invariant r.Ok? ==> r.value.VSection? && |r.value.arguments| == Present(fields, raw, i)
        invariant r.Ok? ==> forall j :: i <= j < |fields| ==> fields[j].name !in r.value.arguments
      {
        r := BuildField(fields, raw, i, path, r.value.arguments, old(missing));
        i := i + 1;
      }
      if r.Err? {
        FieldRefusedStays(fields, raw, i, |fields|);
      }
    }

    /** One field of a section: the arguments with it, or the report with its path. */
    method BuildField(fields: seq<Field>, raw: Raw, i: nat, path: Path, arguments: map<string, Value>,
                      ghost start: seq<Path>) returns (r: Result)
      requires raw.RMap? && i < |fields| && WellFormed(fields[i].typ) && fields[i].name !in arguments
      requires Follows(ConvertFields(fields, raw, i), path, start, Ok(VSection(arguments)), missing)
      modifies this
      ensures Follows(ConvertFields(fields, raw, i + 1), path, start, r, missing)
      ensures r.Ok? ==> r.value.VSection? && r.value.arguments.Keys <= arguments.Keys + {fields[i].name}
      ensures r.Ok? ==> |r.value.arguments| == |arguments| + (if fields[i].name in raw.entries then 1 else 0)
      decreases raw, 0, 0
    {
      var name := fields[i].name;
      if name !in raw.entries {
        AddMissing(fields, raw, i, path, start, missing, arguments);
        missing := missing + [path + [Name(name)]];
        return Ok(VSection(arguments));
      }
      ghost var before := missing;
      r := ConvertValue(fields[i].typ, raw.entries[name], path + [Name(name)]);
      AddConverted(fields, raw, i, path, start, before, arguments, r, missing);
      if r.Ok? {
        r := Ok(VSection(arguments[name := r.value]));
      }
    }
  }

  lemma AddItem(item: Type, raw: Raw, i: nat, path: Path, start: seq<Path>, before: seq<Path>,
                items: seq<Value>, r: Result, after: seq<Path>)
    requires raw.RList? && i < |raw.items|
    requires Follows(ConvertItems(item, raw, i), path, start, Ok(VTuple(items)), before)
    requires Follows(Convert(item, raw.items[i]), path + [Index(i)], before, r, after)
    ensures Follows(ConvertItems(item, raw, i + 1), path, start, if r.Err? then r else Ok(VTuple(items + [r.value])), after)
  {
    FollowsBelow(Convert(item, raw.items[i]), path, Index(i), before, r, after);
    if r.Ok? {
      UnderJoined(path, ConvertItems(item, raw, i).missing, Below(Index(i), Convert(item, raw.items[i])).missing);
    }
  }

  /** How many of the first k fields the section gives. */
  function Present(fields: seq<Field>, raw: Raw, k: nat): nat
    requires raw.RMap? && k <= |fields|
  {
    if k == 0 then 0 else Present(fields, raw, k - 1) + if fields[k - 1].name in raw.entries then 1 else 0
  }

  lemma {:induction false} AllPresent(fields: seq<Field>, raw: Raw, k: nat)
    requires raw.RMap? && k <= |fields|
    ensures Present(fields, raw, k) <= k
    ensures Present(fields, raw, k) == k <==> forall j :: 0 <= j < k ==> fields[j].name in raw.entries
  {
    if k > 0 {
      AllPresent(fields, raw, k - 1);
    }
  }

  lemma AddMissing(fields: seq<Field>, raw: Raw, i: nat, path: Path, start: seq<Path>, before: seq<Path>,
                   arguments: map<string, Value>)
    requires raw.RMap? && i < |fields| && fields[i].name !in raw.entries
    requires Follows(ConvertFields(fields, raw, i), path, start, Ok(VSection(arguments)), before)
    ensures Follows(ConvertFields(fields, raw, i + 1), path, start, Ok(VSection(arguments)),
                    before + [path + [Name(fields[i].name)]])
  {
    UnderJoined(path, ConvertFields(fields, raw, i).missing, [[Name(fields[i].name)]]);
  }

  lemma {:induction false} AddConverted(fields: seq<Field>, raw: Raw, i: nat, path: Path, start: seq<Path>,
          before: seq<Path>,
                     arguments: map<string, Value>, r: Result, after: seq<Path>)
    requires raw.RMap? && i < |fields| && fields[i].name in raw.entries
    requires Follows(ConvertFields(fields, raw, i), path, start, Ok(VSection(arguments)), before)
    requires Follows(Convert(fields[i].typ, raw.entries[fields[i].name]), path + [Name(fields[i].name)], before, r, after)
    ensures Follows(ConvertFields(fields, raw, i + 1), path, start,
                    if r.Err? then r else Ok(VSection(arguments[fields[i].name := r.value])), after)
  {
    var name := fields[i].name;
    FollowsBelow(Convert(fields[i].typ, raw.entries[name]), path, Name(name), before, r, after);
    if r.Ok? {
      UnderJoined(path, ConvertFields(fields, raw, i).missing, Below(Name(name), Convert(fields[i].typ, raw.entries[name])).missing);
    }
  }

  lemma {:induction false} RefusedStays(item: Type, raw: Raw, i: nat, k: nat)
    requires raw.RList? && i <= k <= |raw.items| && ConvertItems(item, raw, i).Refused?
    ensures ConvertItems(item, raw, k) == ConvertItems(item, raw, i)
  {
    if i < k {
      RefusedStays(item, raw, i, k - 1);
    }
  }

  lemma {:induction false} FieldRefusedStays(fields: seq<Field>, raw: Raw, i: nat, k: nat)
    requires raw.RMap? && i <= k <= |fields| && ConvertFields(fields, raw, i).Refused?
    ensures ConvertFields(fields, raw, k) == ConvertFields(fields, raw, i)
  {
    if i < k {
      FieldRefusedStays(fields, raw, i, k - 1);
    }
  }

  /** A configuration comes out exactly when every value fits and nothing is absent, and then
      it has the declared type. Otherwise, when every value fits, the report is exactly the
      topmost absent settings in declaration order. */
  method BuildConfig(t: Type, raw: Raw) returns (e: Ending)
    requires WellFormed(t)
    ensures e.Config? <==> Fits(t, raw) && Complete(t, raw)
    ensures e.Config? ==> HasType(t, e.value)
    ensures forall v :: e == Config(v) <==> Represents(t, raw, v)
    ensures e.Refusal? <==> !Fits(t, raw)
    ensures e.Refusal? ==> IsProblem(t, raw, e.at, e.problem)
    ensures e.MissingSettings? ==> Lists(e.paths, t, raw) && InOrder(t, e.paths)
    ensures e.Config? ==> Convert(t, raw) == Built(e.value, [])
  {
    var builder := new ConfigBuilder();
    var r := builder.ConvertValue(t, raw, []);
    ConvertFits(t, raw);
    forall v ensures Convert(t, raw) == Built(v, []) <==> Represents(t, raw, v) {
      BuiltIsRepresented(t, raw, v);
    }
    match r
    case Err(at, problem) =>
      RefusalIsTrue(t, raw);
      assert [] + Convert(t, raw).at == Convert(t, raw).at;
      return Refusal(at, problem);
    case Ok(value) =>
      ghost var found := Convert(t, raw).missing;
      UnderTop(found);
      MissingExact(t, raw);
      MissingInOrder(t, raw);
      assert builder.missing == found;
      NothingListed(found, t, raw);
      if found == [] {
        BuiltTyped(t, raw);
      }
      return if builder.missing != [] then MissingSettings(builder.missing) else Config(value);
  }
}
