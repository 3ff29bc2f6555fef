/** What building a configuration promises: typed results, exact reports, and undoing export. */
module Building {
  import opened Schema

  lemma {:induction false} IndexOf(fields: seq<Field>, i: nat)
    requires Distinct(fields) && i < |fields|
    ensures FieldIndex(fields, fields[i].name) == i && TypeOf(fields, fields[i].name) == fields[i].typ
  {
  }

  // ------------------------------------------------------------------ refusals

  lemma {:induction false} ConvertFits(t: Type, raw: Raw)
    requires WellFormed(t)
    ensures Convert(t, raw).Built? <==> Fits(t, raw)
    decreases raw, 1, t
  {
    match t
    case TOptional(inner) => if !raw.RNull? { ConvertFits(inner, raw); }
    case TTuple(item) => if raw.RList? { ItemsFit(item, raw, |raw.items|); }
    case TSection(fields) =>
      if raw.RMap? {
        FieldsFit(fields, raw, |fields|);
      }
    case _ =>
  }

  lemma {:induction false} ItemsFit(item: Type, raw: Raw, k: nat)
    requires WellFormed(item) && raw.RList? && k <= |raw.items|
    ensures ConvertItems(item, raw, k).Built? <==> forall i :: 0 <= i < k ==> Fits(item, raw.items[i])
    decreases raw, 0, k
  {
    if k > 0 {
      ItemsFit(item, raw, k - 1);
      ConvertFits(item, raw.items[k - 1]);
    }
  }

  lemma {:induction false} FieldsFit(fields: seq<Field>, raw: Raw, k: nat)
    requires WellFormed(TSection(fields)) && raw.RMap? && k <= |fields|
    ensures ConvertFields(fields, raw, k).Built? <==>
      forall i :: 0 <= i < k && fields[i].name in raw.entries ==>
        Fits(TypeOf(fields, fields[i].name), raw.entries[fields[i].name])
    decreases raw, 0, k
  {
    if k > 0 {
      FieldsFit(fields, raw, k - 1);
      IndexOf(fields, k - 1);
      if fields[k - 1].name in raw.entries {
        ConvertFits(fields[k - 1].typ, raw.entries[fields[k - 1].name]);
      }
    }
  }

  /** What a refusal says is so. */
  lemma {:induction false} RefusalIsTrue(t: Type, raw: Raw)
    requires WellFormed(t) && Convert(t, raw).Refused?
    ensures IsProblem(t, raw, Convert(t, raw).at, Convert(t, raw).problem)
    decreases raw, 1, t
  {
    match t
    case TOptional(inner) => RefusalIsTrue(inner, raw);
    case TTuple(item) => if raw.RList? { ItemRefused(item, raw, |raw.items|); }
    case TSection(fields) =>
      if raw.RMap? && forall n :: n in raw.entries.Keys ==> Declared(fields, n) {
        FieldRefused(fields, raw, |fields|);
      }
    case _ =>
  }

  lemma {:induction false} ItemRefused(item: Type, raw: Raw, k: nat)
    requires WellFormed(item) && raw.RList? && k <= |raw.items| && ConvertItems(item, raw, k).Refused?
    ensures var o := ConvertItems(item, raw, k); o.at != [] && IsProblem(TTuple(item), raw, o.at, o.problem)
    decreases raw, 0, k
  {
    if ConvertItems(item, raw, k - 1).Refused? {
      ItemRefused(item, raw, k - 1);
    } else {
      RefusalIsTrue(item, raw.items[k - 1]);
    }
  }

  lemma {:induction false} FieldRefused(fields: seq<Field>, raw: Raw, k: nat)
    requires WellFormed(TSection(fields)) && raw.RMap? && k <= |fields| && ConvertFields(fields, raw, k).Refused?
    ensures var o := ConvertFields(fields, raw, k); o.at != [] && IsProblem(TSection(fields), raw, o.at, o.problem)
    decreases raw, 0, k
  {
    if ConvertFields(fields, raw, k - 1).Refused? {
      FieldRefused(fields, raw, k - 1);
    } else {
      IndexOf(fields, k - 1);
      RefusalIsTrue(fields[k - 1].typ, raw.entries[fields[k - 1].name]);
    }
  }

  // ------------------------------------------------------------------ typed results

  lemma {:induction false} BuiltTyped(t: Type, raw: Raw)
    requires WellFormed(t) && Convert(t, raw).Built? && Convert(t, raw).missing == []
    ensures HasType(t, Convert(t, raw).value)
    decreases raw, 1, t
  {
    match t
    case TOptional(inner) => if !raw.RNull? { BuiltTyped(inner, raw); }
    case TTuple(item) => if raw.RList? { ItemsTyped(item, raw, |raw.items|); }
    case TSection(fields) =>
      FieldsPresent(fields, raw, |fields|);
      FieldsTyped(fields, raw, |fields|);
    case _ =>
  }

  lemma {:induction false} ItemsTyped(item: Type, raw: Raw, k: nat)
    requires WellFormed(item) && raw.RList? && k <= |raw.items|
    requires ConvertItems(item, raw, k).Built? && ConvertItems(item, raw, k).missing == []
    ensures forall i :: 0 <= i < k ==> HasType(item, ConvertItems(item, raw, k).value.items[i])
    decreases raw, 0, k
  {
    if k > 0 {
      LastItemBuilt(item, raw, k, ConvertItems(item, raw, k - 1));
      ItemsTyped(item, raw, k - 1);
      BuiltTyped(item, raw.items[k - 1]);
    }
  }

  /** Where nothing is missing of the first k fields, the last of them is there and built. */
  lemma {:induction false} LastFieldBuilt(fields: seq<Field>, raw: Raw, k: nat, front: Outcome)
    requires raw.RMap? && 0 < k <= |fields| && front == ConvertFields(fields, raw, k - 1)
    requires ConvertFields(fields, raw, k).Built? && ConvertFields(fields, raw, k).missing == []
    ensures front.Built? && front.missing == [] && fields[k - 1].name in raw.entries
    ensures var o := Convert(fields[k - 1].typ, raw.entries[fields[k - 1].name]);
      && o.Built? && o.missing == []
      && ConvertFields(fields, raw, k).value.arguments == front.value.arguments[fields[k - 1].name := o.value]
  {
  }

  lemma {:induction false} FieldsPresent(fields: seq<Field>, raw: Raw, k: nat)
    requires raw.RMap? && k <= |fields|
    requires ConvertFields(fields, raw, k).Built? && ConvertFields(fields, raw, k).missing == []
    ensures forall i :: 0 <= i < k ==>
      fields[i].name in raw.entries && fields[i].name in ConvertFields(fields, raw, k).value.arguments
  {
    if k > 0 {
      LastFieldBuilt(fields, raw, k, ConvertFields(fields, raw, k - 1));
      FieldsPresent(fields, raw, k - 1);
    }
  }

  lemma {:induction false} FieldsTyped(fields: seq<Field>, raw: Raw, k: nat)
    requires WellFormed(TSection(fields)) && raw.RMap? && k <= |fields|
    requires ConvertFields(fields, raw, k).Built? && ConvertFields(fields, raw, k).missing == []
    ensures var arguments := ConvertFields(fields, raw, k).value.arguments;
      forall n :: n in arguments ==> Declared(fields, n) && HasType(TypeOf(fields, n), arguments[n])
    decreases raw, 0, k
  {
    if k > 0 {
      LastFieldBuilt(fields, raw, k, ConvertFields(fields, raw, k - 1));
      FieldsTyped(fields, raw, k - 1);
      IndexOf(fields, k - 1);
      BuiltTyped(fields[k - 1].typ, raw.entries[fields[k - 1].name]);
    }
  }

  // ------------------------------------------------------------------ missing settings

  ghost predicate Lists(paths: seq<Path>, t: Type, raw: Raw) {
    forall q :: q in paths <==> TopmostAbsent(t, raw, q)
  }

  /** No declared setting is absent. */
  ghost predicate Complete(t: Type, raw: Raw) {
    forall q :: !TopmostAbsent(t, raw, q)
  }

  lemma NothingListed(paths: seq<Path>, t: Type, raw: Raw)
    requires Lists(paths, t, raw)
    ensures paths == [] <==> Complete(t, raw)
  {
    if paths != [] {
      assert paths[0] in paths && TopmostAbsent(t, raw, paths[0]);
    }
  }

  ghost predicate InOrder(t: Type, paths: seq<Path>) {
    forall i, j :: 0 <= i < j < |paths| ==> Before(t, paths[i], paths[j])
  }

  lemma InPrefixed(step: Step, paths: seq<Path>, q: Path)
    ensures q in Prefixed(step, paths) <==> q != [] && q[0] == step && q[1..] in paths
  {
    var r := Prefixed(step, paths);
    if q in r {
      var i :| 0 <= i < |r| && r[i] == q;
      assert q[1..] == paths[i];
    }
    if q != [] && q[0] == step && q[1..] in paths {
      var i :| 0 <= i < |paths| && paths[i] == q[1..];
      assert r[i] == [step] + q[1..] == q;
    }
  }

  /** The report is exactly the topmost absent paths. */
  lemma {:induction false} MissingExact(t: Type, raw: Raw)
    requires WellFormed(t) && Convert(t, raw).Built?
    ensures Lists(Convert(t, raw).missing, t, raw)
    decreases raw, 1, t
  {
    forall q
      ensures q in Convert(t, raw).missing <==> TopmostAbsent(t, raw, q)
    {
      match t
      case TOptional(inner) => if !raw.RNull? { MissingExact(inner, raw); }
      case TTuple(item) => if raw.RList? { ItemsMissing(item, raw, |raw.items|, q); }
      case TSection(fields) => FieldsMissing(fields, raw, |fields|, q);
      case _ =>
    }
  }

  lemma {:induction false} ItemsMissing(item: Type, raw: Raw, k: nat, q: Path)
    requires WellFormed(item) && raw.RList? && k <= |raw.items| && ConvertItems(item, raw, k).Built?
    ensures q in ConvertItems(item, raw, k).missing <==>
      q != [] && q[0].Index? && q[0].index < k && TopmostAbsent(item, raw.items[q[0].index], q[1..])
    decreases raw, 0, k
  {
    if k > 0 {
      ItemsMissing(item, raw, k - 1, q);
      MissingExact(item, raw.items[k - 1]);
      InPrefixed(Index(k - 1), Convert(item, raw.items[k - 1]).missing, q);
    }
  }

  predicate AbsentBelow(fields: seq<Field>, raw: Raw, k: nat, q: Path)
    requires raw.RMap?
  {
    q != [] && q[0].Name? && Declared(fields, q[0].name) && FieldIndex(fields, q[0].name) < k
    && if q[0].name in raw.entries then TopmostAbsent(TypeOf(fields, q[0].name), raw.entries[q[0].name], q[1..])
       else |q| == 1
  }

  lemma {:induction false} FieldsMissing(fields: seq<Field>, raw: Raw, k: nat, q: Path)
    requires WellFormed(TSection(fields)) && raw.RMap? && k <= |fields| && ConvertFields(fields, raw, k).Built?
    ensures q in ConvertFields(fields, raw, k).missing <==> AbsentBelow(fields, raw, k, q)
    decreases raw, 0, k
  {
    if k > 0 {
      var name := fields[k - 1].name;
      FieldsMissing(fields, raw, k - 1, q);
      IndexOf(fields, k - 1);
      assert q == [Name(name)] <==> |q| == 1 && q[0] == Name(name);
      if q != [] && q[0].Name? && Declared(fields, q[0].name) {
        assert FieldIndex(fields, q[0].name) == k - 1 <==> q[0].name == name;
      }
      if name in raw.entries {
        MissingExact(fields[k - 1].typ, raw.entries[name]);
        InPrefixed(Name(name), Convert(fields[k - 1].typ, raw.entries[name]).missing, q);
      }
    }
  }

  lemma {:induction false} NotBeforeItself(t: Type, p: Path)
    ensures !Before(t, p, p)
    decreases t
  {
    match t
    case TOptional(inner) => NotBeforeItself(inner, p);
    case TTuple(item) => if p != [] { NotBeforeItself(item, p[1..]); }
    case TSection(fields) =>
      if p != [] && p[0].Name? && Declared(fields, p[0].name) {
        NotBeforeItself(TypeOf(fields, p[0].name), p[1..]);
      }
    case _ =>
  }

  /** The report follows the declaration order, so it names no setting twice. */
  lemma {:induction false} MissingInOrder(t: Type, raw: Raw)
    requires WellFormed(t) && Convert(t, raw).Built?
    ensures InOrder(t, Convert(t, raw).missing)
    decreases raw, 1, t
  {
    match t
    case TOptional(inner) => if !raw.RNull? { MissingInOrder(inner, raw); }
    case TTuple(item) => if raw.RList? { ItemsInOrder(item, raw, |raw.items|); }
    case TSection(fields) => FieldsInOrder(fields, raw, |fields|);
    case _ =>
  }

  lemma {:induction false} ItemsInOrder(item: Type, raw: Raw, k: nat)
    requires WellFormed(item) && raw.RList? && k <= |raw.items| && ConvertItems(item, raw, k).Built?
    ensures InOrder(TTuple(item), ConvertItems(item, raw, k).missing)
    decreases raw, 0, k
  {
    if k > 0 {
      ItemsInOrder(item, raw, k - 1);
      MissingInOrder(item, raw.items[k - 1]);
      var front, last := ConvertItems(item, raw, k - 1).missing, Convert(item, raw.items[k - 1]).missing;
      forall q: Path | q in front
        ensures q != [] && q[0].Index? && q[0].index < k - 1
      {
        ItemsMissing(item, raw, k - 1, q);
      }
      Appended(TTuple(item), front, Prefixed(Index(k - 1), last));
    }
  }

  lemma {:induction false} FieldsInOrder(fields: seq<Field>, raw: Raw, k: nat)
    requires WellFormed(TSection(fields)) && raw.RMap? && k <= |fields| && ConvertFields(fields, raw, k).Built?
    ensures InOrder(TSection(fields), ConvertFields(fields, raw, k).missing)
    decreases raw, 0, k
  {
    if k > 0 {
      var name := fields[k - 1].name;
      FieldsInOrder(fields, raw, k - 1);
      IndexOf(fields, k - 1);
      var front := ConvertFields(fields, raw, k - 1).missing;
      forall q: Path | q in front
        ensures AbsentBelow(fields, raw, k - 1, q)
      {
        FieldsMissing(fields, raw, k - 1, q);
      }
      if name in raw.entries {
        MissingInOrder(fields[k - 1].typ, raw.entries[name]);
        Appended(TSection(fields), front, Prefixed(Name(name), Convert(fields[k - 1].typ, raw.entries[name]).missing));
      } else {
        Appended(TSection(fields), front, [[Name(name)]]);
      }
    }
  }

  lemma {:induction false} Appended(t: Type, a: seq<Path>, b: seq<Path>)
    requires InOrder(t, a) && InOrder(t, b)
    requires forall p, q :: p in a && q in b ==> Before(t, p, q)
    ensures InOrder(t, a + b)
  {
  }

  // ------------------------------------------------------------------ export and build

  /** Building an exported value gives the value back, with nothing missing. */
  lemma {:induction false} ConvertExport(t: Type, v: Value)
    requires WellFormed(t) && HasType(t, v)
    ensures Convert(t, Export(v)) == Built(v, [])
    decreases v, 1, t
  {
    match t
    case TOptional(inner) => if !v.VNone? { ConvertExport(inner, v); NullIsNone(v); }
    case TTuple(item) =>
      forall i | 0 <= i < |v.items|
        ensures Convert(item, Export(v).items[i]) == Built(v.items[i], [])
      {
        ConvertExport(item, v.items[i]);
      }
      ItemsBuilt(item, Export(v), v.items, |v.items|);
      assert v.items[..|v.items|] == v.items;
    case TSection(fields) => SectionExport(fields, v);
    case _ =>
  }

  lemma {:induction false} NullIsNone(v: Value)
    ensures Export(v).RNull? <==> v.VNone?
  {
  }

  lemma {:induction false} ItemsBuilt(item: Type, raw: Raw, items: seq<Value>, k: nat)
    requires raw.RList? && |raw.items| == |items| && k <= |items|
    requires forall i :: 0 <= i < |items| ==> Convert(item, raw.items[i]) == Built(items[i], [])
    ensures ConvertItems(item, raw, k) == Built(VTuple(items[..k]), [])
  {
    if k > 0 {
      ItemsBuilt(item, raw, items, k - 1);
      assert items[..k] == items[..k - 1] + [items[k - 1]];
    }
  }

  lemma {:induction false} SectionExport(fields: seq<Field>, v: Value)
    requires WellFormed(TSection(fields)) && HasType(TSection(fields), v)
    ensures Convert(TSection(fields), Export(v)) == Built(v, [])
    decreases v, 0
  {
    forall i | 0 <= i < |fields|
      ensures Convert(fields[i].typ, Export(v.arguments[fields[i].name])) == Built(v.arguments[fields[i].name], [])
    {
      IndexOf(fields, i);
      ConvertExport(fields[i].typ, v.arguments[fields[i].name]);
    }
    FieldsBuilt(fields, Export(v), v.arguments, |fields|);
    SectionBuilt(fields, Export(v), v.arguments);
  }

  ghost predicate Builds(fields: seq<Field>, raw: Raw, arguments: map<string, Value>) {
    && raw.RMap? && raw.entries.Keys == arguments.Keys
    && forall i :: 0 <= i < |fields| ==>
      && fields[i].name in arguments
      && Convert(fields[i].typ, raw.entries[fields[i].name]) == Built(arguments[fields[i].name], [])
  }

  lemma {:induction false} FieldsBuilt(fields: seq<Field>, raw: Raw, arguments: map<string, Value>, k: nat)
    requires Builds(fields, raw, arguments) && k <= |fields|
    ensures var o := ConvertFields(fields, raw, k);
      && o.Built? && o.missing == []
      && (forall n :: n in o.value.arguments ==> n in arguments && o.value.arguments[n] == arguments[n])
      && (forall i :: 0 <= i < k ==> fields[i].name in o.value.arguments)
  {
    if k > 0 {
      FieldsBuilt(fields, raw, arguments, k - 1);
    }
  }

  lemma {:induction false} SectionBuilt(fields: seq<Field>, raw: Raw, arguments: map<string, Value>)
    requires Builds(fields, raw, arguments) && forall n :: n in arguments ==> Declared(fields, n)
    ensures Convert(TSection(fields), raw) == Built(VSection(arguments), [])
  {
    FieldsBuilt(fields, raw, arguments, |fields|);
    assert ConvertFields(fields, raw, |fields|).value.arguments == arguments;
  }

  // ------------------------------------------------------------------ what is built

  /** The value built is the one the raw value stands for, and every such value is built. */
  lemma {:induction false} BuiltIsRepresented(t: Type, raw: Raw, v: Value)
    requires WellFormed(t)
    ensures Convert(t, raw) == Built(v, []) <==> Represents(t, raw, v)
    decreases raw, 1, t
  {
    match t
    case TOptional(inner) => if !raw.RNull? { BuiltIsRepresented(inner, raw, v); }
    case TTuple(item) => if raw.RList? { TupleRepresented(item, raw, v); }
    case TSection(fields) => if raw.RMap? { SectionRepresented(fields, raw, v); }
    case _ =>
  }

  lemma {:induction false} TupleRepresented(item: Type, raw: Raw, v: Value)
    requires WellFormed(item) && raw.RList?
    ensures Convert(TTuple(item), raw) == Built(v, []) <==> Represents(TTuple(item), raw, v)
    decreases raw, 0, |raw.items| + 1
  {
    if Convert(TTuple(item), raw) == Built(v, []) {
      ItemsRepresented(item, raw, |raw.items|);
    }
    if Represents(TTuple(item), raw, v) {
      forall i | 0 <= i < |raw.items|
        ensures Convert(item, raw.items[i]) == Built(v.items[i], [])
      {
        BuiltIsRepresented(item, raw.items[i], v.items[i]);
      }
      ItemsBuilt(item, raw, v.items, |v.items|);
      assert v.items[..|v.items|] == v.items;
    }
  }

  /** Where nothing is missing of the first k items, the last of them is built. */
  lemma {:induction false} LastItemBuilt(item: Type, raw: Raw, k: nat, front: Outcome)
    requires raw.RList? && 0 < k <= |raw.items| && front == ConvertItems(item, raw, k - 1)
    requires ConvertItems(item, raw, k).Built? && ConvertItems(item, raw, k).missing == []
    ensures front.Built? && front.missing == []
    ensures var o := Convert(item, raw.items[k - 1]);
      && o.Built? && o.missing == [] && ConvertItems(item, raw, k).value.items == front.value.items + [o.value]
  {
  }

  lemma {:induction false} ItemsRepresented(item: Type, raw: Raw, k: nat)
    requires WellFormed(item) && raw.RList? && k <= |raw.items|
    requires ConvertItems(item, raw, k).Built? && ConvertItems(item, raw, k).missing == []
    ensures forall i :: 0 <= i < k ==> Represents(item, raw.items[i], ConvertItems(item, raw, k).value.items[i])
    decreases raw, 0, k
  {
    if k > 0 {
      LastItemBuilt(item, raw, k, ConvertItems(item, raw, k - 1));
      ItemsRepresented(item, raw, k - 1);
      BuiltIsRepresented(item, raw.items[k - 1], Convert(item, raw.items[k - 1]).value);
    }
  }

  lemma {:induction false} SectionRepresented(fields: seq<Field>, raw: Raw, v: Value)
    requires WellFormed(TSection(fields)) && raw.RMap?
    ensures Convert(TSection(fields), raw) == Built(v, []) <==> Represents(TSection(fields), raw, v)
    decreases raw, 0, |fields| + 1
  {
    if Represents(TSection(fields), raw, v) {
      forall i | 0 <= i < |fields|
        ensures Convert(fields[i].typ, raw.entries[fields[i].name]) == Built(v.arguments[fields[i].name], [])
      {
        IndexOf(fields, i);
        BuiltIsRepresented(fields[i].typ, raw.entries[fields[i].name], v.arguments[fields[i].name]);
      }
      SectionBuilt(fields, raw, v.arguments);
    } else if Convert(TSection(fields), raw) == Built(v, []) {
      FieldsRepresented(fields, raw, |fields|);
      FieldsPresent(fields, raw, |fields|);
      ArgumentsAreEntries(fields, raw, v.arguments);
    }
  }

  lemma {:induction false} ArgumentsAreEntries(fields: seq<Field>, raw: Raw, arguments: map<string, Value>)
    requires raw.RMap? && forall n :: n in raw.entries ==> Declared(fields, n)
    requires forall n :: n in arguments ==>
      n in raw.entries && Declared(fields, n) && Represents(TypeOf(fields, n), raw.entries[n], arguments[n])
    requires forall i :: 0 <= i < |fields| ==> fields[i].name in arguments
    ensures Represents(TSection(fields), raw, VSection(arguments))
  {
    forall n | n in raw.entries
      ensures n in arguments
    {
      assert fields[FieldIndex(fields, n)].name == n;
    }
  }

  lemma {:induction false} FieldsRepresented(fields: seq<Field>, raw: Raw, k: nat)
    requires WellFormed(TSection(fields)) && raw.RMap? && k <= |fields|
    requires ConvertFields(fields, raw, k).Built? && ConvertFields(fields, raw, k).missing == []
    ensures var arguments := ConvertFields(fields, raw, k).value.arguments;
      forall n :: n in arguments ==>
        n in raw.entries && Declared(fields, n) && Represents(TypeOf(fields, n), raw.entries[n], arguments[n])
    ensures forall i :: 0 <= i < k ==> fields[i].name in ConvertFields(fields, raw, k).value.arguments
    decreases raw, 0, k
  {
    if k > 0 {
      LastFieldBuilt(fields, raw, k, ConvertFields(fields, raw, k - 1));
      FieldsRepresented(fields, raw, k - 1);
      IndexOf(fields, k - 1);
      var name := fields[k - 1].name;
      BuiltIsRepresented(fields[k - 1].typ, raw.entries[name], Convert(fields[k - 1].typ, raw.entries[name]).value);
    }
  }
}
