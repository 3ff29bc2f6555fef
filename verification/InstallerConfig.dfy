/** Building the installer's configuration from the values of all sources: credentials nobody
    gives are blank, the paths are nested, and what is nested is built. */
module InstallerConfig {
  import opened Text
  import opened Schema
  import opened Building
  import opened Builder
  import opened Nesting
  import opened RoundTrip
  import opened ExportedConfig
  import opened GivenValues

  /** No path is given twice. */
  predicate PathsDistinct(values: seq<Entry>) {
    forall i, j :: 0 <= i < j < |values| ==> values[i].path != values[j].path
  }

  /** The value given for a path, or a blank one. */
  function GivenOrBlank(values: seq<Entry>, path: Names): Raw {
    if values == [] then RStr("")
    else if values[0].path == path then values[0].value
    else GivenOrBlank(values[1..], path)
  }

  predicate IsCredential(passwords: seq<Field>, path: Names) {
    exists i :: 0 <= i < |passwords| && path == [CREDENTIALS, passwords[i].name]
  }

  function WithoutCredentials(passwords: seq<Field>, values: seq<Entry>): seq<Entry> {
    if values == [] then []
    else
      var front, last := WithoutCredentials(passwords, values[..|values| - 1]), values[|values| - 1];
      if IsCredential(passwords, last.path) then front else front + [last]
  }

  /** `{**blank, **values}`: the credentials first, blank unless given, then the other values. */
  function WithCredentials(passwords: seq<Field>, values: seq<Entry>): seq<Entry> {
    seq(|passwords|, i requires 0 <= i < |passwords| =>
      Entry([CREDENTIALS, passwords[i].name], GivenOrBlank(values, [CREDENTIALS, passwords[i].name])))
    + WithoutCredentials(passwords, values)
  }

  lemma {:induction false} OthersAreValues(passwords: seq<Field>, values: seq<Entry>)
    ensures forall e :: e in WithoutCredentials(passwords, values) <==> e in values && !IsCredential(passwords, e.path)
  {
    if values != [] {
      var front, last := values[..|values| - 1], values[|values| - 1];
      OthersAreValues(passwords, front);
      assert values == front + [last];
    }
  }

  lemma AllNamed(passwords: seq<Field>, values: seq<Entry>)
    requires Named(values)
    ensures Named(WithCredentials(passwords, values))
  {
    OthersAreValues(passwords, values);
    var others := WithoutCredentials(passwords, values);
    forall i | 0 <= i < |others|
      ensures others[i].path != []
    {
      assert others[i] in others;
    }
  }

  lemma {:induction false} BlankWhenNotGiven(values: seq<Entry>, path: Names)
    requires forall i :: 0 <= i < |values| ==> values[i].path != path
    ensures GivenOrBlank(values, path) == RStr("")
  {
    if values != [] {
      assert values[0].path != path;
      BlankWhenNotGiven(values[1..], path);
    }
  }

  lemma {:induction false} NothingLeftOut(passwords: seq<Field>, values: seq<Entry>)
    requires forall i :: 0 <= i < |values| ==> !IsCredential(passwords, values[i].path)
    ensures WithoutCredentials(passwords, values) == values
  {
    if values != [] {
      NothingLeftOut(passwords, values[..|values| - 1]);
      assert values == values[..|values| - 1] + [values[|values| - 1]];
    }
  }

  /** Values that give no credential are preceded by blank ones. */
  lemma NoneGiven(passwords: seq<Field>, values: seq<Entry>)
    requires forall i :: 0 <= i < |values| ==> !IsCredential(passwords, values[i].path)
    ensures WithCredentials(passwords, values) == BlankCredentials(passwords) + values
  {
    NothingLeftOut(passwords, values);
    forall i | 0 <= i < |passwords|
      ensures GivenOrBlank(values, [CREDENTIALS, passwords[i].name]) == RStr("")
    {
      BlankWhenNotGiven(values, [CREDENTIALS, passwords[i].name]);
    }
  }

  /** The values of an exported configuration, its secrets put back, build it again with blank
      credentials. */
  lemma {:induction false} ExportedValuesBuild(sections: seq<Field>, passwords: seq<Field>, v: Value, file: Raw, values: seq<Entry>)
    requires var t := ConfigType(sections, passwords); WellFormed(t) && Inhabited(t) && HasType(t, v)
    requires AllText(passwords) && SECRETS in v.arguments
    requires file == RMap(Exported(v)[SECRETS := Export(v.arguments[SECRETS])])
    requires Enumerates(values, TSection(sections), file)
    ensures var all := WithCredentials(passwords, values);
      && Named(all) && NestAll(all).Some?
      && Convert(ConfigType(sections, passwords), RMap(NestAll(all).value)) == Built(WithBlankCredentials(v, passwords), [])
  {
    forall i | 0 <= i < |values|
      ensures !IsCredential(passwords, values[i].path)
    {
      NotInFile(sections, passwords, file, values[i].path);
    }
    NoneGiven(passwords, values);
    ExportThenBuild(sections, passwords, v, file, values);
  }

  lemma {:induction false} NotInFile(sections: seq<Field>, passwords: seq<Field>, file: Raw, q: Names)
    requires WellFormed(ConfigType(sections, passwords)) && LeafAt(TSection(sections), file, q).Some? && file.RMap?
    ensures !IsCredential(passwords, q)
  {
    var last := Field(CREDENTIALS, TSection(passwords));
    var i := FieldIndex(sections, q[0]);
    assert (sections + [last])[i] == sections[i] && (sections + [last])[|sections|] == last;
  }

  // ------------------------------------------------------------------ credentials are never missing

  /** The first k passwords are in the credentials section. */
  predicate HasCredentials(nested: map<string, Raw>, passwords: seq<Field>, k: nat)
    requires k <= |passwords|
  {
    && (k > 0 ==> CREDENTIALS in nested && nested[CREDENTIALS].RMap?)
    && forall i :: 0 <= i < k ==> passwords[i].name in nested[CREDENTIALS].entries
  }

  lemma {:induction false} InsertKeeps(nested: map<string, Raw>, q: Names, value: Raw, n: string)
    requires q != [] && Insert(nested, q, value).Some? && n in nested
    ensures n in Insert(nested, q, value).value
  {
  }

  lemma {:induction false} InsertAdds(nested: map<string, Raw>, q: Names, value: Raw)
    requires q != [] && Insert(nested, q, value).Some?
    ensures q[0] in Insert(nested, q, value).value
  {
  }

  /** Inserting anywhere but at the section itself keeps the credentials. */
  lemma {:induction false} CredentialsStay(nested: map<string, Raw>, q: Names, value: Raw,
          passwords: seq<Field>, k: nat, after: map<string, Raw>)
    requires k <= |passwords| && HasCredentials(nested, passwords, k)
    requires q != [] && q != [CREDENTIALS] && Insert(nested, q, value) == Some(after)
    ensures HasCredentials(after, passwords, k)
  {
    var n, rest := q[0], q[1..];
    if n == CREDENTIALS && k > 0 {
      assert q == [n] + rest && rest != [];
      InsertInto(nested, n, rest, q, value);
      forall i | 0 <= i < k
        ensures passwords[i].name in after[CREDENTIALS].entries
      {
        InsertKeeps(nested[CREDENTIALS].entries, rest, value, passwords[i].name);
      }
    }
  }

  lemma {:induction false} CredentialAdded(nested: map<string, Raw>, passwords: seq<Field>, k: nat, value: Raw,
          after: map<string, Raw>)
    requires k < |passwords| && HasCredentials(nested, passwords, k)
    requires Insert(nested, [CREDENTIALS, passwords[k].name], value) == Some(after)
    ensures HasCredentials(after, passwords, k + 1)
  {
    var q, rest := [CREDENTIALS, passwords[k].name], [passwords[k].name];
    assert q == [CREDENTIALS] + rest;
    CredentialsStay(nested, q, value, passwords, k, after);
    InsertInto(nested, CREDENTIALS, rest, q, value);
    InsertAdds(Branch(nested, CREDENTIALS), rest, value);
  }

  /** How many of the passwords are among the first j entries. */
  function Passed(passwords: seq<Field>, j: nat): nat {
    if j <= |passwords| then j else |passwords|
  }

  lemma {:induction false} CredentialsNested(passwords: seq<Field>, values: seq<Entry>, all: seq<Entry>, j: nat)
    requires Named(values) && Named(all) && all == WithCredentials(passwords, values) && j <= |all|
    requires forall i :: 0 <= i < |values| ==> values[i].path != [CREDENTIALS]
    requires NestAll(all[..j]).Some?
    ensures HasCredentials(NestAll(all[..j]).value, passwords, Passed(passwords, j))
  {
    if j > 0 {
      var front, last := all[..j - 1], all[j - 1];
      assert all[..j][..j - 1] == front && all[..j][j - 1] == last;
      CredentialsNested(passwords, values, all, j - 1);
      var before, after := NestAll(front).value, NestAll(all[..j]).value;
      if j <= |passwords| {
        CredentialAdded(before, passwords, j - 1, last.value, after);
      } else {
        OthersAreValues(passwords, values);
        assert last == WithoutCredentials(passwords, values)[j - 1 - |passwords|];
        assert last in WithoutCredentials(passwords, values);
        CredentialsStay(before, last.path, last.value, passwords, |passwords|, after);
      }
    }
  }

  lemma {:induction false} PasswordsNotAbsent(passwords: seq<Field>, section: Raw, q: Path)
    requires AllText(passwords) && section.RMap?
    requires forall i :: 0 <= i < |passwords| ==> passwords[i].name in section.entries
    ensures !TopmostAbsent(TSection(passwords), section, q)
  {
    assert forall n :: Declared(passwords, n) ==> n in section.entries && TypeOf(passwords, n) == TStr;
  }

  lemma {:induction false} CredentialsNotAbsent(sections: seq<Field>, passwords: seq<Field>,
          nested: map<string, Raw>, q: Path)
    requires WellFormed(ConfigType(sections, passwords)) && AllText(passwords) && passwords != []
    requires HasCredentials(nested, passwords, |passwords|)
    requires q != [] && q[0] == Name(CREDENTIALS)
    ensures !TopmostAbsent(ConfigType(sections, passwords), RMap(nested), q)
  {
    TypeLast(sections, Field(CREDENTIALS, TSection(passwords)));
    PasswordsNotAbsent(passwords, nested[CREDENTIALS], q[1..]);
  }

  // ------------------------------------------------------------------ what is given arrives

  lemma {:induction false} GivenAsGiven(values: seq<Entry>, i: nat)
    requires PathsDistinct(values) && i < |values|
    ensures GivenOrBlank(values, values[i].path) == values[i].value
  {
    if i > 0 {
      assert values[0].path != values[i].path;
      assert values[1..][i - 1] == values[i];
      GivenAsGiven(values[1..], i - 1);
    }
  }

  lemma {:induction false} OthersDistinct(passwords: seq<Field>, values: seq<Entry>)
    requires PathsDistinct(values)
    ensures PathsDistinct(WithoutCredentials(passwords, values))
  {
    if values != [] {
      var front, last := values[..|values| - 1], values[|values| - 1];
      OthersDistinct(passwords, front);
      OthersAreValues(passwords, front);
      var others := WithoutCredentials(passwords, front);
      forall i | 0 <= i < |others|
        ensures others[i].path != last.path
      {
        assert others[i] in others;
        var k :| 0 <= k < |front| && front[k] == others[i];
        assert values[k] == front[k];
      }
    }
  }

  lemma AllDistinct(passwords: seq<Field>, values: seq<Entry>)
    requires PathsDistinct(values) && Distinct(passwords)
    ensures PathsDistinct(WithCredentials(passwords, values))
  {
    var all, n := WithCredentials(passwords, values), |passwords|;
    OthersDistinct(passwords, values);
    OthersAreValues(passwords, values);
    forall i, j | 0 <= i < j < |all|
      ensures all[i].path != all[j].path
    {
      if j < n {
        assert all[i].path[1] == passwords[i].name && all[j].path[1] == passwords[j].name;
      } else {
        assert all[j] in WithoutCredentials(passwords, values);
        if i < n {
          assert IsCredential(passwords, all[i].path);
        } else {
          assert WithoutCredentials(passwords, values)[i - n] == all[i];
          assert WithoutCredentials(passwords, values)[j - n] == all[j];
        }
      }
    }
  }

  /** Each entry is a given one or a blank credential. */
  lemma EntryIsGivenOrBlank(passwords: seq<Field>, values: seq<Entry>, k: nat)
    requires PathsDistinct(values) && k < |WithCredentials(passwords, values)|
    ensures var e := WithCredentials(passwords, values)[k];
      e in values || (k < |passwords| && e == Entry([CREDENTIALS, passwords[k].name], RStr("")))
    ensures k < |passwords| ==> WithCredentials(passwords, values)[k].path == [CREDENTIALS, passwords[k].name]
  {
    var all := WithCredentials(passwords, values);
    if k < |passwords| {
      var path := [CREDENTIALS, passwords[k].name];
      if i :| 0 <= i < |values| && values[i].path == path {
        GivenAsGiven(values, i);
      } else {
        BlankWhenNotGiven(values, path);
      }
    } else {
      OthersAreValues(passwords, values);
      assert all[k] == WithoutCredentials(passwords, values)[k - |passwords|];
    }
  }

  lemma GivenEntry(passwords: seq<Field>, values: seq<Entry>, i: nat) returns (k: nat)
    requires PathsDistinct(values) && i < |values|
    ensures k < |WithCredentials(passwords, values)| && WithCredentials(passwords, values)[k] == values[i]
  {
    if IsCredential(passwords, values[i].path) {
      k :| k < |passwords| && values[i].path == [CREDENTIALS, passwords[k].name];
      GivenAsGiven(values, i);
    } else {
      OthersAreValues(passwords, values);
      var others := WithoutCredentials(passwords, values);
      assert values[i] in others;
      var j :| 0 <= j < |others| && others[j] == values[i];
      k := |passwords| + j;
    }
  }

  lemma GivenLeftAlone(passwords: seq<Field>, values: seq<Entry>, i: nat, k: nat)
    requires Named(values) && PathsDistinct(values) && Distinct(passwords) && i < |values| && GivenAlone(values, i)
    requires k < |WithCredentials(passwords, values)| && WithCredentials(passwords, values)[k] == values[i]
    ensures NothingLater(WithCredentials(passwords, values), k)
  {
    var all := WithCredentials(passwords, values);
    AllDistinct(passwords, values);
    forall l | k < l < |all|
      ensures !(all[l].path <= all[k].path) && (all[k].path <= all[l].path ==> !all[k].value.RMap?)
    {
      EntryIsGivenOrBlank(passwords, values, l);
      if all[l] in values {
        var j :| 0 <= j < |values| && values[j] == all[l];
        assert i != j;
      } else {
        EntryIsGivenOrBlank(passwords, values, k);
      }
    }
  }

  lemma PrefixOfTwo(p: Names, first: string, second: string)
    ensures p <= [first, second] <==> p == [] || p == [first] || p == [first, second]
  {
    if p <= [first, second] {
      assert p == [first, second][..|p|];
    }
  }

  /** Where nothing is given for the whole section, nothing disturbs a credential. */
  lemma {:induction false} CredentialLeftAlone(passwords: seq<Field>, values: seq<Entry>, k: nat)
    requires Named(values) && PathsDistinct(values) && Distinct(passwords) && k < |passwords|
    requires forall i :: 0 <= i < |values| ==> values[i].path != [CREDENTIALS]
    requires !GivenOrBlank(values, [CREDENTIALS, passwords[k].name]).RMap?
    ensures NothingLater(WithCredentials(passwords, values), k)
  {
    var all := WithCredentials(passwords, values);
    AllNamed(passwords, values);
    AllDistinct(passwords, values);
    forall l | k < l < |all|
      ensures !(all[l].path <= all[k].path)
    {
      EntryIsGivenOrBlank(passwords, values, l);
      PrefixOfTwo(all[l].path, CREDENTIALS, passwords[k].name);
      assert all[l].path != [] && all[l].path != all[k].path && all[l].path != [CREDENTIALS];
    }
  }

  // ------------------------------------------------------------------ the configuration

  datatype Configured = InsideAValue | Ends(ending: Ending)

  /** What building a nested mapping ends with. */
  ghost predicate EndsWell(t: Type, raw: Raw, e: Ending)
    requires WellFormed(t)
  {
    && (e.Config? <==> Fits(t, raw) && Complete(t, raw))
    && (e.Config? ==> HasType(t, e.value) && Represents(t, raw, e.value))
    && (e.Refusal? <==> !Fits(t, raw))
    && (e.Refusal? ==> IsProblem(t, raw, e.at, e.problem))
    && (e.MissingSettings? ==> Lists(e.paths, t, raw) && InOrder(t, e.paths))
  }

  /** Every value that is given where no other is, at, above or inside its path, arrives. */
  ghost predicate GivenArrive(t: Type, values: seq<Entry>, v: Value) {
    forall i :: 0 <= i < |values| && GivenAlone(values, i) ==> FoundAt(t, v, values[i].path, values[i].value)
  }

  /** The credentials hold the text given for each, and none for those not given, unless a value
      stands for the whole section. */
  ghost predicate CredentialsArrive(passwords: seq<Field>, values: seq<Entry>, v: Value) {
    (forall i :: 0 <= i < |values| ==> values[i].path != [CREDENTIALS]) ==>
      && v.VSection? && CREDENTIALS in v.arguments && v.arguments[CREDENTIALS].VSection?
      && forall j :: 0 <= j < |passwords| ==>
        var name, given := passwords[j].name, v.arguments[CREDENTIALS].arguments;
        && name in given
        && (forall i, text :: 0 <= i < |values| && values[i] == Entry([CREDENTIALS, name], RStr(text)) ==>
              given[name] == VStr(text))
        && ((forall i :: 0 <= i < |values| ==> values[i].path != [CREDENTIALS, name]) ==> given[name] == VStr(""))
  }

  lemma {:induction false} AllGivenArrive(t: Type, passwords: seq<Field>, values: seq<Entry>,
          nested: map<string, Raw>, v: Value)
    requires Named(values) && PathsDistinct(values) && Distinct(passwords)
    requires Named(WithCredentials(passwords, values)) && NestAll(WithCredentials(passwords, values)) == Some(nested)
    requires Represents(t, RMap(nested), v)
    ensures GivenArrive(t, values, v)
  {
    forall i | 0 <= i < |values| && GivenAlone(values, i)
      ensures FoundAt(t, v, values[i].path, values[i].value)
    {
      var k := GivenEntry(passwords, values, i);
      GivenLeftAlone(passwords, values, i, k);
      GivenIsRead(WithCredentials(passwords, values), k);
      ReadArrives(t, nested, v, values[i].path);
    }
  }

  /** One credential, whether given or blank. */
  lemma {:induction false} CredentialArrives(sections: seq<Field>, passwords: seq<Field>, values: seq<Entry>,
          nested: map<string, Raw>, v: Value, j: nat)
    requires Named(values) && PathsDistinct(values) && WellFormed(ConfigType(sections, passwords)) && AllText(passwords)
    requires Named(WithCredentials(passwords, values)) && NestAll(WithCredentials(passwords, values)) == Some(nested)
    requires Represents(ConfigType(sections, passwords), RMap(nested), v) && j < |passwords|
    requires forall i :: 0 <= i < |values| ==> values[i].path != [CREDENTIALS]
    requires GivenOrBlank(values, [CREDENTIALS, passwords[j].name]).RStr?
    ensures v.VSection? && CREDENTIALS in v.arguments && v.arguments[CREDENTIALS].VSection?
    ensures passwords[j].name in v.arguments[CREDENTIALS].arguments
    ensures v.arguments[CREDENTIALS].arguments[passwords[j].name]
      == VStr(GivenOrBlank(values, [CREDENTIALS, passwords[j].name]).text)
  {
    var all := WithCredentials(passwords, values);
    PasswordsDistinct(sections, passwords);
    CredentialLeftAlone(passwords, values, j);
    GivenIsRead(all, j);
    ReadArrives(ConfigType(sections, passwords), nested, v, all[j].path);
    ArrivedCredential(sections, passwords, v, j, all[j].path, all[j].value);
  }

  lemma {:induction false} ArrivedCredential(sections: seq<Field>, passwords: seq<Field>, v: Value, j: nat, path: Names,
                             raw: Raw)
    requires WellFormed(ConfigType(sections, passwords)) && AllText(passwords) && j < |passwords| && raw.RStr?
    requires path == [CREDENTIALS, passwords[j].name] && FoundAt(ConfigType(sections, passwords), v, path, raw)
    ensures v.VSection? && CREDENTIALS in v.arguments && v.arguments[CREDENTIALS].VSection?
    ensures passwords[j].name in v.arguments[CREDENTIALS].arguments
    ensures v.arguments[CREDENTIALS].arguments[passwords[j].name] == VStr(raw.text)
  {
    TypeLast(sections, Field(CREDENTIALS, TSection(passwords)));
    PasswordsDistinct(sections, passwords);
    IndexOf(passwords, j);
    ArrivesInSection(TSection(passwords), v.arguments[CREDENTIALS], path[1..], raw);
    assert path[1..][0] == passwords[j].name && path[1..][1..] == [];
  }

  lemma {:induction false} ArrivesInSection(t: Type, v: Value, q: Names, raw: Raw)
    requires t.TSection? && |q| == 1 && FoundAt(t, v, q, raw)
    ensures Declared(t.fields, q[0]) && v.VSection? && q[0] in v.arguments
    ensures Represents(TypeOf(t.fields, q[0]), raw, v.arguments[q[0]])
  {
    assert q[1..] == [];
  }

  lemma {:induction false} AllCredentialsArrive(sections: seq<Field>, passwords: seq<Field>, values: seq<Entry>,
          nested: map<string, Raw>, v: Value)
    requires Named(values) && PathsDistinct(values) && WellFormed(ConfigType(sections, passwords)) && AllText(passwords)
    requires Named(WithCredentials(passwords, values)) && NestAll(WithCredentials(passwords, values)) == Some(nested)
    requires Represents(ConfigType(sections, passwords), RMap(nested), v)
    ensures CredentialsArrive(passwords, values, v)
  {
    TypeLast(sections, Field(CREDENTIALS, TSection(passwords)));
    if forall i :: 0 <= i < |values| ==> values[i].path != [CREDENTIALS] {
      forall j | 0 <= j < |passwords|
        ensures passwords[j].name in v.arguments[CREDENTIALS].arguments
        ensures forall i, text ::
          0 <= i < |values| && values[i] == Entry([CREDENTIALS, passwords[j].name], RStr(text)) ==>
            v.arguments[CREDENTIALS].arguments[passwords[j].name] == VStr(text)
        ensures (forall i :: 0 <= i < |values| ==> values[i].path != [CREDENTIALS, passwords[j].name]) ==>
          v.arguments[CREDENTIALS].arguments[passwords[j].name] == VStr("")
      {
        var path := [CREDENTIALS, passwords[j].name];
        if i, text :| 0 <= i < |values| && values[i] == Entry(path, RStr(text)) {
          GivenAsGiven(values, i);
          CredentialArrives(sections, passwords, values, nested, v, j);
        } else if forall i :: 0 <= i < |values| ==> values[i].path != path {
          BlankWhenNotGiven(values, path);
          CredentialArrives(sections, passwords, values, nested, v, j);
        }
      }
    }
  }

  /** `build_installer_config`: refused when a path leads through a value; otherwise a
      configuration exactly when the nested values fit and none is absent. Credentials are
      never reported, unless a value stands for their whole section. */
  method BuildInstallerConfig(sections: seq<Field>, passwords: seq<Field>, values: seq<Entry>) returns (c: Configured)
    requires WellFormed(ConfigType(sections, passwords)) && AllText(passwords) && passwords != []
    requires Named(values) && PathsDistinct(values)
    ensures Named(WithCredentials(passwords, values))
    ensures c.InsideAValue? <==> NestAll(WithCredentials(passwords, values)).None?
    ensures c.Ends? ==>
      EndsWell(ConfigType(sections, passwords), RMap(NestAll(WithCredentials(passwords, values)).value), c.ending)
    ensures c.Ends? && c.ending.Config? ==>
      && GivenArrive(ConfigType(sections, passwords), values, c.ending.value)
      && CredentialsArrive(passwords, values, c.ending.value)
    ensures c.Ends? && c.ending.MissingSettings? && (forall i :: 0 <= i < |values| ==> values[i].path != [CREDENTIALS]) ==>
      forall q :: q in c.ending.paths ==> q != [] && q[0] != Name(CREDENTIALS)
  {
    ghost var t := ConfigType(sections, passwords);
    AllNamed(passwords, values);
    var all := WithCredentials(passwords, values);
    var nested := Nest(all);
    if nested.None? {
      return InsideAValue;
    }
    var e := BuildConfig(ConfigType(sections, passwords), RMap(nested.value));
    if e.MissingSettings? && forall i :: 0 <= i < |values| ==> values[i].path != [CREDENTIALS] {
      assert all[..|all|] == all;
      CredentialsNested(passwords, values, all, |all|);
      forall q | q in e.paths
        ensures q != [] && q[0] != Name(CREDENTIALS)
      {
        assert TopmostAbsent(t, RMap(nested.value), q);
        if q[0] == Name(CREDENTIALS) {
          CredentialsNotAbsent(sections, passwords, nested.value, q);
        }
      }
    }
    if e.Config? {
      PasswordsDistinct(sections, passwords);
      AllGivenArrive(t, passwords, values, nested.value, e.value);
      AllCredentialsArrive(sections, passwords, values, nested.value, e.value);
    }
    return Ends(e);
  }
}
