/** The configuration an installed system keeps, read back: passwords come out blank and
    everything else as it was. */
module ExportedConfig {
  import opened Text
  import opened Schema
  import opened Building
  import opened Nesting
  import opened RoundTrip

  const CREDENTIALS: string := "credentials"
  const SECRETS: string := "secrets"

  /** The configuration type: its sections, and the credentials, which no file may give. */
  function ConfigType(sections: seq<Field>, passwords: seq<Field>): Type {
    TSection(sections + [Field(CREDENTIALS, TSection(passwords))])
  }

  predicate AllText(passwords: seq<Field>) {
    forall i :: 0 <= i < |passwords| ==> passwords[i].typ == TStr
  }

  /** The shape of config.yaml, without passwords. */
  function Exported(v: Value): map<string, Raw>
    requires v.VSection?
  {
    Export(v).entries - {CREDENTIALS, SECRETS}
  }

  /** Neither the passwords nor the encrypted secrets are in what is exported; every other section
      is, and reads as the value it was. */
  lemma {:induction false} SecretsStayOut(t: Type, v: Value, n: string)
    requires t.TSection? && WellFormed(t) && HasType(t, v)
    ensures n in Exported(v) <==> n in v.arguments && n != "credentials" && n != "secrets"
    ensures n in Exported(v) ==> Represents(TypeOf(t.fields, n), Exported(v)[n], v.arguments[n])
  {
    if n in Exported(v) {
      ConvertExport(TypeOf(t.fields, n), v.arguments[n]);
      var i := FieldIndex(t.fields, n);
      assert WellFormed(t.fields[i].typ);
      BuiltIsRepresented(TypeOf(t.fields, n), Exported(v)[n], v.arguments[n]);
    }
  }

  /** `with_credentials` before the values are merged in. */
  function BlankCredentials(passwords: seq<Field>): (r: seq<Entry>)
    ensures |r| == |passwords|
    ensures forall i :: 0 <= i < |r| ==> r[i] == Entry([CREDENTIALS, passwords[i].name], RStr(""))
  {
    seq(|passwords|, i requires 0 <= i < |passwords| => Entry([CREDENTIALS, passwords[i].name], RStr("")))
  }

  function FieldNames(fields: seq<Field>): (names: set<string>)
    ensures forall i :: 0 <= i < |fields| ==> fields[i].name in names
    ensures forall n :: n in names ==> Declared(fields, n)
  {
    set i | 0 <= i < |fields| :: fields[i].name
  }

  function Blank(passwords: seq<Field>): Value {
    VSection(map n | n in FieldNames(passwords) :: VStr(""))
  }

  function WithBlankCredentials(v: Value, passwords: seq<Field>): Value
    requires v.VSection?
  {
    VSection(v.arguments[CREDENTIALS := Blank(passwords)])
  }

  lemma TypeElsewhere(sections: seq<Field>, last: Field, n: string)
    requires Distinct(sections + [last]) && n != last.name
    ensures Declared(sections + [last], n) <==> Declared(sections, n)
    ensures Declared(sections, n) ==> TypeOf(sections + [last], n) == TypeOf(sections, n)
  {
    var all := sections + [last];
    assert Distinct(sections) by {
      assert forall i :: 0 <= i < |sections| ==> all[i] == sections[i];
    }
    if Declared(sections, n) {
      var i := FieldIndex(sections, n);
      assert all[i].name == n;
      IndexOf(all, i);
    }
    if Declared(all, n) {
      var i := FieldIndex(all, n);
      assert all[i] == sections[i];
    }
  }

  lemma TypeLast(sections: seq<Field>, last: Field)
    requires Distinct(sections + [last])
    ensures Declared(sections + [last], last.name) && TypeOf(sections + [last], last.name) == last.typ
  {
    var all := sections + [last];
    assert all[|sections|] == last;
    IndexOf(all, |sections|);
  }

  lemma BlankTyped(passwords: seq<Field>)
    requires Distinct(passwords) && AllText(passwords)
    ensures HasType(TSection(passwords), Blank(passwords))
  {
    var v := Blank(passwords);
    forall n | n in v.arguments
      ensures Declared(passwords, n) && TypeOf(passwords, n) == TStr
    {
    }
    assert forall i :: 0 <= i < |passwords| ==> passwords[i].name in v.arguments;
  }

  lemma {:induction false} BlankedTyped(sections: seq<Field>, passwords: seq<Field>, v: Value)
    requires WellFormed(ConfigType(sections, passwords)) && AllText(passwords) && HasType(ConfigType(sections, passwords), v)
    ensures HasType(ConfigType(sections, passwords), WithBlankCredentials(v, passwords))
  {
    var last := Field(CREDENTIALS, TSection(passwords));
    TypeLast(sections, last);
    assert (sections + [last])[|sections|] == last;
    BlankTyped(passwords);
  }

  /** Leaves outside the credentials are those of the file. */
  lemma {:induction false} LeafElsewhere(sections: seq<Field>, passwords: seq<Field>, full: Raw, file: Raw, q: Names)
    requires WellFormed(ConfigType(sections, passwords)) && full.RMap? && file == RMap(full.entries - {CREDENTIALS})
    requires q == [] || q[0] != CREDENTIALS
    ensures LeafAt(ConfigType(sections, passwords), full, q) == LeafAt(TSection(sections), file, q)
  {
    if q != [] {
      TypeElsewhere(sections, Field(CREDENTIALS, TSection(passwords)), q[0]);
    }
  }

  lemma {:induction false} LeafOfPasswords(passwords: seq<Field>, q: Names)
    requires Distinct(passwords) && AllText(passwords)
    ensures LeafAt(TSection(passwords), Export(Blank(passwords)), q)
      == if |q| == 1 && Declared(passwords, q[0]) then Some(RStr("")) else None
  {
    if q != [] && Declared(passwords, q[0]) {
      var i := FieldIndex(passwords, q[0]);
      assert passwords[i].name in Blank(passwords).arguments;
    }
  }

  lemma {:induction false} LeafOfCredentials(sections: seq<Field>, passwords: seq<Field>, full: Raw, q: Names)
    requires WellFormed(ConfigType(sections, passwords)) && AllText(passwords) && full.RMap?
    requires CREDENTIALS in full.entries && full.entries[CREDENTIALS] == Export(Blank(passwords))
    requires q != [] && q[0] == CREDENTIALS
    ensures LeafAt(ConfigType(sections, passwords), full, q)
      == if |q| == 2 && Declared(passwords, q[1]) then Some(RStr("")) else None
  {
    var last := Field(CREDENTIALS, TSection(passwords));
    TypeLast(sections, last);
    assert (sections + [last])[|sections|] == last && WellFormed(last.typ);
    LeafOfPasswords(passwords, q[1..]);
  }

  predicate Blanked(sections: seq<Field>, passwords: seq<Field>, full: Raw, file: Raw) {
    && WellFormed(ConfigType(sections, passwords)) && AllText(passwords) && full.RMap?
    && CREDENTIALS in full.entries && full.entries[CREDENTIALS] == Export(Blank(passwords))
    && file == RMap(full.entries - {CREDENTIALS})
  }

  lemma {:induction false} FileEntry(sections: seq<Field>, passwords: seq<Field>, full: Raw, file: Raw, e: Entry)
    requires Blanked(sections, passwords, full, file)
    requires LeafAt(TSection(sections), file, e.path) == Some(e.value)
    ensures e.path != [] && e.path[0] != CREDENTIALS
    ensures LeafAt(ConfigType(sections, passwords), full, e.path) == Some(e.value)
  {
    LeafElsewhere(sections, passwords, full, file, e.path);
  }

  lemma {:induction false} EveryLeaf(sections: seq<Field>, passwords: seq<Field>, full: Raw, file: Raw,
          entries: seq<Entry>, q: Names)
    requires Blanked(sections, passwords, full, file) && Enumerates(entries, TSection(sections), file)
    requires LeafAt(ConfigType(sections, passwords), full, q).Some?
    ensures exists i :: 0 <= i < |passwords| + |entries| && (BlankCredentials(passwords) + entries)[i].path == q
  {
    var blanks := BlankCredentials(passwords);
    var all := blanks + entries;
    if q != [] && q[0] == CREDENTIALS {
      LeafOfCredentials(sections, passwords, full, q);
      var i := FieldIndex(passwords, q[1]);
      assert all[i] == blanks[i];
      assert [CREDENTIALS, q[1]] == q;
    } else {
      LeafElsewhere(sections, passwords, full, file, q);
      var i :| 0 <= i < |entries| && entries[i].path == q;
      assert all[|blanks| + i] == entries[i];
    }
  }

  lemma DistinctEntries(passwords: seq<Field>, entries: seq<Entry>)
    requires Distinct(passwords)
    requires forall i, j :: 0 <= i < j < |entries| ==> entries[i].path != entries[j].path
    requires forall i :: 0 <= i < |entries| ==> entries[i].path != [] && entries[i].path[0] != CREDENTIALS
    ensures var all := BlankCredentials(passwords) + entries;
      forall i, j :: 0 <= i < j < |all| ==> all[i].path != all[j].path
  {
    var blanks := BlankCredentials(passwords);
    forall i, j | 0 <= i < j < |passwords|
      ensures blanks[i].path != blanks[j].path
    {
      assert blanks[i].path[1] == passwords[i].name && blanks[j].path[1] == passwords[j].name;
    }
    assert forall i :: 0 <= i < |passwords| ==> blanks[i].path[0] == CREDENTIALS;
  }

  lemma FullEntries(sections: seq<Field>, passwords: seq<Field>, full: Raw, file: Raw, entries: seq<Entry>)
    requires Blanked(sections, passwords, full, file) && Enumerates(entries, TSection(sections), file)
    ensures Enumerates(BlankCredentials(passwords) + entries, ConfigType(sections, passwords), full)
  {
    var t, blanks := ConfigType(sections, passwords), BlankCredentials(passwords);
    var all := blanks + entries;
    forall i | 0 <= i < |entries|
      ensures entries[i].path != [] && entries[i].path[0] != CREDENTIALS
      ensures LeafAt(t, full, entries[i].path) == Some(entries[i].value)
    {
      FileEntry(sections, passwords, full, file, entries[i]);
    }
    forall i | 0 <= i < |blanks|
      ensures LeafAt(t, full, blanks[i].path) == Some(blanks[i].value)
    {
      LeafOfCredentials(sections, passwords, full, blanks[i].path);
    }
    PasswordsDistinct(sections, passwords);
    DistinctEntries(passwords, entries);
    forall q | LeafAt(t, full, q).Some?
      ensures exists i :: 0 <= i < |all| && all[i].path == q
    {
      EveryLeaf(sections, passwords, full, file, entries, q);
    }
  }

  lemma PasswordsDistinct(sections: seq<Field>, passwords: seq<Field>)
    requires WellFormed(ConfigType(sections, passwords))
    ensures Distinct(passwords)
  {
    var last := Field(CREDENTIALS, TSection(passwords));
    assert (sections + [last])[|sections|] == last && WellFormed(last.typ);
  }

  /** Every typed configuration: exporting it, putting its encrypted secrets back, flattening,
      adding blank credentials, nesting in any order and building gives it back with blank
      credentials. */
  lemma {:induction false} ExportThenBuild(sections: seq<Field>, passwords: seq<Field>, v: Value, file: Raw,
          entries: seq<Entry>)
    requires var t := ConfigType(sections, passwords); WellFormed(t) && Inhabited(t) && HasType(t, v)
    requires AllText(passwords) && SECRETS in v.arguments
    requires file == RMap(Exported(v)[SECRETS := Export(v.arguments[SECRETS])])
    requires Enumerates(entries, TSection(sections), file)
    ensures var all := BlankCredentials(passwords) + entries;
      && Named(all) && NestAll(all).Some?
      && Convert(ConfigType(sections, passwords), RMap(NestAll(all).value)) == Built(WithBlankCredentials(v, passwords), [])
  {
    var t, blanked := ConfigType(sections, passwords), WithBlankCredentials(v, passwords);
    var all := BlankCredentials(passwords) + entries;
    assert Enumerates(all, t, Export(blanked)) by {
      FileIsBlanked(v, passwords, file);
      FullEntries(sections, passwords, Export(blanked), file, entries);
    }
    assert HasType(t, blanked) by {
      BlankedTyped(sections, passwords, v);
    }
    ExportRoundTrip(t, blanked, all);
  }

  lemma FileIsBlanked(v: Value, passwords: seq<Field>, file: Raw)
    requires v.VSection? && SECRETS in v.arguments
    requires file == RMap(Exported(v)[SECRETS := Export(v.arguments[SECRETS])])
    ensures file == RMap(Export(WithBlankCredentials(v, passwords)).entries - {CREDENTIALS})
    ensures CREDENTIALS in Export(WithBlankCredentials(v, passwords)).entries
    ensures Export(WithBlankCredentials(v, passwords)).entries[CREDENTIALS] == Export(Blank(passwords))
  {
    assert CREDENTIALS != SECRETS by {
      assert |CREDENTIALS| != |SECRETS|;
    }
    assert file.entries == Export(WithBlankCredentials(v, passwords)).entries - {CREDENTIALS};
  }
}
