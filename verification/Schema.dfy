/** Building a typed configuration from raw values, directed by its declared type. */
module Schema {
  import opened Text

  /** Types a setting may be declared with; a section is a dataclass. */
  datatype Type =
    | TStr | TInt | TBool
    | TEnum(members: seq<string>)
    | TTuple(item: Type)
    | TOptional(inner: Type)
    | TSection(fields: seq<Field>)

  datatype Field = Field(name: string, typ: Type)

  /** What YAML, the environment or a question may give. */
  datatype Raw =
    | RNull | RStr(text: string) | RInt(n: int) | RBool(b: bool) | ROther(shown: string)
    | RList(items: seq<Raw>)
    | RMap(entries: map<string, Raw>)

  datatype Value =
    | VStr(text: string) | VInt(n: int) | VBool(b: bool) | VEnum(member: string)
    | VTuple(items: seq<Value>) | VNone
    | VSection(arguments: map<string, Value>)

  /** A step of a setting path: `.name` or `[index]`. */
  datatype Step = Name(name: string) | Index(index: nat)
  type Path = seq<Step>

  datatype Problem = NotAMapping | UnknownKeys | NotAList | NotAMember | NotAnInteger | NotABoolean | NotAString

  /** A conversion refuses a value, or builds one and names the settings that were missing.
      Paths are relative to the value converted. */
  datatype Outcome = Built(value: Value, missing: seq<Path>) | Refused(at: Path, problem: Problem)

  predicate Declared(fields: seq<Field>, name: string) {
    exists i :: 0 <= i < |fields| && fields[i].name == name
  }

  function FieldIndex(fields: seq<Field>, name: string): (i: nat)
    requires Declared(fields, name)
    ensures i < |fields| && fields[i].name == name
  {
    if fields[0].name == name then 0
    else
      assert forall i :: 0 < i < |fields| ==> fields[i] == fields[1..][i - 1];
      1 + FieldIndex(fields[1..], name)
  }

  function TypeOf(fields: seq<Field>, name: string): Type
    requires Declared(fields, name)
  {
    fields[FieldIndex(fields, name)].typ
  }

  predicate Distinct(fields: seq<Field>) {
    forall i, j :: 0 <= i < j < |fields| ==> fields[i].name != fields[j].name
  }

  /** A declared type: field names are distinct in every section of it. */
  predicate WellFormed(t: Type) {
    match t
    case TTuple(item) => WellFormed(item)
    case TOptional(inner) => WellFormed(inner)
    case TSection(fields) => Distinct(fields) && forall i :: 0 <= i < |fields| ==> WellFormed(fields[i].typ)
    case _ => true
  }

  function Prefixed(step: Step, paths: seq<Path>): (r: seq<Path>)
    ensures |r| == |paths| && forall i :: 0 <= i < |r| ==> r[i] == [step] + paths[i]
  {
    seq(|paths|, i requires 0 <= i < |paths| => [step] + paths[i])
  }

  // ------------------------------------------------------------------ the conversion

  /** A value refused or built at one step below. */
  function Below(step: Step, o: Outcome): Outcome {
    match o
    case Built(v, missing) => Built(v, Prefixed(step, missing))
    case Refused(at, problem) => Refused([step] + at, problem)
  }

  function Convert(t: Type, raw: Raw): Outcome
    decreases raw, 1, t
  {
    match t
    case TOptional(inner) => if raw.RNull? then Built(VNone, []) else Convert(inner, raw)
    case TTuple(item) =>
      if raw.RNull? then Built(VTuple([]), [])
      else if raw.RList? then ConvertItems(item, raw, |raw.items|)
      else Refused([], NotAList)
    case TSection(fields) =>
      if !raw.RMap? then Refused([], NotAMapping)
      else if exists n :: n in raw.entries.Keys && !Declared(fields, n) then Refused([], UnknownKeys)
      else
        var o := ConvertFields(fields, raw, |fields|);
        if o.Built? && exists i :: 0 <= i < |fields| && fields[i].name !in raw.entries then Built(VNone, o.missing)
        else o
    case TEnum(members) =>
      var text := if raw.RNull? then Some("") else if raw.RStr? then Some(raw.text) else None;
      if text.Some? && text.value in members then Built(VEnum(text.value), []) else Refused([], NotAMember)
    case TInt => if raw.RInt? then Built(VInt(raw.n), []) else Refused([], NotAnInteger)
    case TBool => if raw.RBool? then Built(VBool(raw.b), []) else Refused([], NotABoolean)
    case TStr =>
      if raw.RNull? then Built(VStr(""), [])
      else if raw.RStr? then Built(VStr(raw.text), [])
      else Refused([], NotAString)
  }

  /** The first k items, as a tuple. */
  function ConvertItems(item: Type, raw: Raw, k: nat): (o: Outcome)
    requires raw.RList? && k <= |raw.items|
    ensures o.Built? ==> o.value.VTuple? && |o.value.items| == k
    decreases raw, 0, k
  {
    if k == 0 then Built(VTuple([]), [])
    else
      var front := ConvertItems(item, raw, k - 1);
      if front.Refused? then front
      else
        var last := Below(Index(k - 1), Convert(item, raw.items[k - 1]));
        if last.Refused? then last
        else Built(VTuple(front.value.items + [last.value]), front.missing + last.missing)
  }

  /** The first k fields, as keyword arguments. */
  function ConvertFields(fields: seq<Field>, raw: Raw, k: nat): (o: Outcome)
    requires raw.RMap? && k <= |fields|
    ensures o.Built? ==> o.value.VSection?
    decreases raw, 0, k
  {
    if k == 0 then Built(VSection(map[]), [])
    else
      var front := ConvertFields(fields, raw, k - 1);
      if front.Refused? then front
      else
        var name := fields[k - 1].name;
        if name !in raw.entries then Built(front.value, front.missing + [[Name(name)]])
        else
          var last := Below(Name(name), Convert(fields[k - 1].typ, raw.entries[name]));
          if last.Refused? then last
          else Built(VSection(front.value.arguments[name := last.value]), front.missing + last.missing)
  }

  // ------------------------------------------------------------------ what it promises

  /** No value is of the wrong type, and no key is unknown. */
  predicate Fits(t: Type, raw: Raw)
    decreases raw, t
  {
    match t
    case TOptional(inner) => raw.RNull? || Fits(inner, raw)
    case TTuple(item) =>
      raw.RNull? || (raw.RList? && forall i :: 0 <= i < |raw.items| ==> Fits(item, raw.items[i]))
    case TSection(fields) =>
      raw.RMap? && forall n :: n in raw.entries ==> Declared(fields, n) && Fits(TypeOf(fields, n), raw.entries[n])
    case TEnum(members) => (raw.RNull? && "" in members) || (raw.RStr? && raw.text in members)
    case TInt => raw.RInt?
    case TBool => raw.RBool?
    case TStr => raw.RNull? || raw.RStr?
  }

  /** Following the path from the top, there is a value of the wrong type, or one with a key
      that is not declared. */
  predicate IsProblem(t: Type, raw: Raw, at: Path, problem: Problem)
    decreases raw, t
  {
    match t
    case TOptional(inner) => !raw.RNull? && IsProblem(inner, raw, at, problem)
    case TTuple(item) =>
      if at == [] then problem == NotAList && !raw.RNull? && !raw.RList?
      else
        && raw.RList? && at[0].Index? && at[0].index < |raw.items|
        && IsProblem(item, raw.items[at[0].index], at[1..], problem)
    case TSection(fields) =>
      if at == [] then
        || (problem == NotAMapping && !raw.RMap?)
        || (problem == UnknownKeys && raw.RMap? && exists n :: n in raw.entries && !Declared(fields, n))
      else
        && raw.RMap? && at[0].Name? && at[0].name in raw.entries && Declared(fields, at[0].name)
        && IsProblem(TypeOf(fields, at[0].name), raw.entries[at[0].name], at[1..], problem)
    case TEnum(members) => at == [] && problem == NotAMember && !Fits(t, raw)
    case TInt => at == [] && problem == NotAnInteger && !raw.RInt?
    case TBool => at == [] && problem == NotABoolean && !raw.RBool?
    case TStr => at == [] && problem == NotAString && !raw.RNull? && !raw.RStr?
  }

  /** Following the path from the top, everything up to its last step is there, and the setting
      the last step declares is not. */
  predicate TopmostAbsent(t: Type, raw: Raw, q: Path)
    decreases raw, t
  {
    match t
    case TOptional(inner) => !raw.RNull? && TopmostAbsent(inner, raw, q)
    case TTuple(item) =>
      raw.RList? && q != [] && q[0].Index? && q[0].index < |raw.items|
      && TopmostAbsent(item, raw.items[q[0].index], q[1..])
    case TSection(fields) =>
      raw.RMap? && q != [] && q[0].Name? && Declared(fields, q[0].name)
      && if q[0].name in raw.entries then TopmostAbsent(TypeOf(fields, q[0].name), raw.entries[q[0].name], q[1..])
         else |q| == 1
    case _ => false
  }

  /** The setting p is declared, or its list item listed, before q. */
  predicate Before(t: Type, p: Path, q: Path)
    decreases t
  {
    match t
    case TOptional(inner) => Before(inner, p, q)
    case TTuple(item) =>
      p != [] && q != [] && p[0].Index? && q[0].Index?
      && (p[0].index < q[0].index || (p[0] == q[0] && Before(item, p[1..], q[1..])))
    case TSection(fields) =>
      p != [] && q != [] && p[0].Name? && q[0].Name? && Declared(fields, p[0].name) && Declared(fields, q[0].name)
      && (FieldIndex(fields, p[0].name) < FieldIndex(fields, q[0].name)
          || (p[0] == q[0] && Before(TypeOf(fields, p[0].name), p[1..], q[1..])))
    case _ => false
  }

  predicate HasType(t: Type, v: Value)
    decreases v, t
  {
    match t
    case TOptional(inner) => v.VNone? || HasType(inner, v)
    case TTuple(item) => v.VTuple? && forall i :: 0 <= i < |v.items| ==> HasType(item, v.items[i])
    case TSection(fields) =>
      && v.VSection?
      && (forall i :: 0 <= i < |fields| ==> fields[i].name in v.arguments)
      && forall n :: n in v.arguments ==> Declared(fields, n) && HasType(TypeOf(fields, n), v.arguments[n])
    case TEnum(members) => v.VEnum? && v.member in members
    case TInt => v.VInt?
    case TBool => v.VBool?
    case TStr => v.VStr?
  }

  /** The value a raw one stands for: null is an empty text or list, or no value where that is
      declared; a section has exactly the arguments its mapping gives. */
  predicate Represents(t: Type, raw: Raw, v: Value)
    decreases raw, t
  {
    match t
    case TOptional(inner) => if raw.RNull? then v.VNone? else Represents(inner, raw, v)
    case TTuple(item) =>
      v.VTuple?
      && if raw.RNull? then v.items == []
         else
           && raw.RList? && |v.items| == |raw.items|
           && forall i :: 0 <= i < |raw.items| ==> Represents(item, raw.items[i], v.items[i])
    case TSection(fields) =>
      && raw.RMap? && v.VSection? && v.arguments.Keys == raw.entries.Keys
      && (forall i :: 0 <= i < |fields| ==> fields[i].name in raw.entries)
      && forall n :: n in raw.entries ==>
        Declared(fields, n) && Represents(TypeOf(fields, n), raw.entries[n], v.arguments[n])
    case TEnum(members) => v.VEnum? && v.member in members && (raw == RStr(v.member) || (raw.RNull? && v.member == ""))
    case TInt => v.VInt? && raw == RInt(v.n)
    case TBool => v.VBool? && raw == RBool(v.b)
    case TStr => v.VStr? && (raw == RStr(v.text) || (raw.RNull? && v.text == ""))
  }

  /** `_plain_yaml_value` of a dataclass turned into a dict. */
  function Export(v: Value): Raw {
    match v
    case VStr(text) => RStr(text)
    case VInt(n) => RInt(n)
    case VBool(b) => RBool(b)
    case VEnum(member) => RStr(member)
    case VNone => RNull
    case VTuple(items) => RList(seq(|items|, i requires 0 <= i < |items| => Export(items[i])))
    case VSection(arguments) => RMap(map n | n in arguments :: Export(arguments[n]))
  }
}
