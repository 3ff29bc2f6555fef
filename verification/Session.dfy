/** The interactive setup: which questions are asked, and what becomes of the answers. */
module Session {
  import opened Text
  import opened Schema
  import opened Precedence

  /** When a question is asked, by the current values of other settings. */
  datatype Condition<P> =
    | Always
    | When(path: P)
    | WhenEqual(path: P, expected: Raw)
    | WhenBoth(first: P, second: P)

  datatype Question =
    | Switch(onLabel: string, offLabel: string)
    | ChooseOne(choices: seq<Choice>)
    | ChooseMany
    | EnterText
    | EnterSecret

  datatype Choice = Choice(value: Raw, text: string)

  datatype Setting<P> = Setting(path: P, question: Option<Question>, askedWhen: Condition<P>)

  /** What the front-end gives when it is asked: a value for each kind of question, and whether
      an inherited secret is kept. */
  datatype Reply = Reply(on: bool, chosen: Raw, many: seq<Raw>, text: string, keep: bool)

  type Inherited<P> = map<P, SettingValue<Raw>>
  type Answers<P> = map<P, Raw>

  predicate Truthy(value: Option<Raw>) {
    match value
    case None => false
    case Some(raw) =>
      match raw
      case RNull => false
      case RBool(b) => b
      case RStr(text) => text != ""
      case RInt(n) => n != 0
      case RList(items) => items != []
      case RMap(entries) => entries != map[]
      case ROther(_) => true
  }

  /** The current value: the answer if it was asked, else the inherited one. */
  function Lookup<P>(inherited: Inherited<P>, answers: Answers<P>, p: P): Option<Raw> {
    if p in answers then Some(answers[p])
    else if p in inherited then Some(inherited[p].value)
    else None
  }

  predicate Holds<P>(c: Condition<P>, inherited: Inherited<P>, answers: Answers<P>) {
    match c
    case Always => true
    case When(p) => Truthy(Lookup(inherited, answers, p))
    case WhenEqual(p, expected) => Lookup(inherited, answers, p) == Some(expected)
    case WhenBoth(p, q) => Truthy(Lookup(inherited, answers, p)) && Truthy(Lookup(inherited, answers, q))
  }

  function Reads<P>(c: Condition<P>): set<P> {
    match c
    case Always => {}
    case When(p) => {p}
    case WhenEqual(p, _) => {p}
    case WhenBoth(p, q) => {p, q}
  }

  function Texts(values: seq<Raw>): set<string> {
    set v | v in values :: Shown(v)
  }

  /** `str(value)`, for the values a question may have. */
  function Shown(v: Raw): string {
    match v
    case RStr(text) => text
    case ROther(text) => text
    case RInt(n) => if n < 0 then "-" + Decimal(-n) else Decimal(n)
    case RBool(b) => if b then "True" else "False"
    case RNull => "None"
    case RList(items) => "[" + ShownItems(items) + "]"
    case RMap(_) => "{}"
  }

  function ShownItems(items: seq<Raw>): string {
    if items == [] then ""
    else if |items| == 1 then Shown(items[0])
    else Shown(items[0]) + ", " + ShownItems(items[1..])
  }

  function Answer(question: Question, inherited: Option<Raw>, reply: Reply): Raw {
    match question
    case Switch(_, _) => RBool(reply.on)
    case ChooseOne(choices) => if choices == [] then RStr(reply.text) else reply.chosen
    case ChooseMany =>
      // the same items in another order keep the inherited value
      if inherited.Some? && inherited.value.RList? && Texts(reply.many) == Texts(inherited.value.items)
      then inherited.value else RList(reply.many)
    case EnterText => RStr(reply.text)
    case EnterSecret => if Truthy(inherited) && reply.keep then inherited.value else RStr(reply.text)
  }

  function InheritedValue<P>(inherited: Inherited<P>, p: P): Option<Raw> {
    if p in inherited then Some(inherited[p].value) else None
  }

  /** The answers after the first k settings. */
  function Asked<P>(settings: seq<Setting<P>>, inherited: Inherited<P>, frontend: P -> Reply, k: nat): Answers<P>
    requires k <= |settings|
  {
    if k == 0 then map[]
    else
      var answers := Asked(settings, inherited, frontend, k - 1);
      var s := settings[k - 1];
      if s.question.Some? && Holds(s.askedWhen, inherited, answers)
      then answers[s.path := Answer(s.question.value, InheritedValue(inherited, s.path), frontend(s.path))]
      else answers
  }

  /** Settings are listed once, and a condition reads only settings listed before it. */
  predicate AskedInOrder<P(==)>(settings: seq<Setting<P>>) {
    && (forall i, j :: 0 <= i < j < |settings| ==> settings[i].path != settings[j].path)
    && forall i, j :: 0 <= i <= j < |settings| ==> settings[j].path !in Reads(settings[i].askedWhen)
  }

  lemma {:induction false} LaterAnswers<P>(settings: seq<Setting<P>>, inherited: Inherited<P>, frontend: P -> Reply,
                                           i: nat, k: nat, p: P)
    requires AskedInOrder(settings) && i <= k <= |settings|
    requires forall j :: i <= j < |settings| ==> settings[j].path != p
    ensures Lookup(inherited, Asked(settings, inherited, frontend, k), p)
         == Lookup(inherited, Asked(settings, inherited, frontend, i), p)
    ensures p in Asked(settings, inherited, frontend, k) <==> p in Asked(settings, inherited, frontend, i)
  {
    if i < k {
      LaterAnswers(settings, inherited, frontend, i, k - 1, p);
    }
  }

  lemma {:induction false} OnlyListed<P>(settings: seq<Setting<P>>, inherited: Inherited<P>,
          frontend: P -> Reply, k: nat, p: P)
    requires k <= |settings| && p in Asked(settings, inherited, frontend, k)
    ensures exists i :: 0 <= i < k && settings[i].path == p && settings[i].question.Some?
  {
    if p in Asked(settings, inherited, frontend, k - 1) {
      OnlyListed(settings, inherited, frontend, k - 1, p);
    } else {
      assert settings[k - 1].path == p;
    }
  }

  /** A question is asked exactly when its condition holds as the session sees it at the end, and
      its answer stays. */
  lemma {:induction false} AskedOnLastValues<P>(settings: seq<Setting<P>>, inherited: Inherited<P>,
          frontend: P -> Reply, i: nat)
    requires AskedInOrder(settings) && i < |settings|
    ensures var final := Asked(settings, inherited, frontend, |settings|);
      var s := settings[i];
      && (s.path in final <==> s.question.Some? && Holds(s.askedWhen, inherited, final))
      && (s.path in final ==>
            final[s.path] == Answer(s.question.value, InheritedValue(inherited, s.path), frontend(s.path)))
  {
    var n, s := |settings|, settings[i];
    var final, before := Asked(settings, inherited, frontend, n), Asked(settings, inherited, frontend, i);
    forall p | p in Reads(s.askedWhen)
      ensures Lookup(inherited, final, p) == Lookup(inherited, before, p)
    {
      LaterAnswers(settings, inherited, frontend, i, n, p);
    }
    if s.path in before {
      OnlyListed(settings, inherited, frontend, i, s.path);
    }
    LaterAnswers(settings, inherited, frontend, i + 1, n, s.path);
  }

  // ------------------------------------------------------------------ the values an installation gets

  /** What Python takes for false, besides there being no value. */
  predicate IsFalse(value: Raw) {
    value in {RNull, RBool(false), RStr(""), RInt(0), RList([]), RMap(map[])}
  }

  predicate IsOn<P>(values: map<P, SettingValue<Raw>>, p: P) {
    p in values && !IsFalse(values[p].value)
  }

  /** The condition of a question on the values an installation gets. */
  predicate Wanted<P>(c: Condition<P>, values: map<P, SettingValue<Raw>>) {
    match c
    case Always => true
    case When(p) => IsOn(values, p)
    case WhenEqual(p, expected) => p in values && values[p].value == expected
    case WhenBoth(p, q) => IsOn(values, p) && IsOn(values, q)
  }

  lemma TruthyIsNotFalse(value: Raw)
    ensures Truthy(Some(value)) <==> !IsFalse(value)
  {
  }

  /** What the session sees for a setting at the end is the value an installation gets. */
  lemma LastIsFinal<P(!new)>(inherited: Inherited<P>, answers: Answers<P>, final: map<P, SettingValue<Raw>>, p: P)
    requires Chooses(inherited, answers, final)
    ensures Lookup(inherited, answers, p) == if p in final then Some(final[p].value) else None
  {
  }

  lemma HoldsWhenWanted<P(!new)>(c: Condition<P>, inherited: Inherited<P>, answers: Answers<P>,
                                 final: map<P, SettingValue<Raw>>)
    requires Chooses(inherited, answers, final)
    ensures Holds(c, inherited, answers) <==> Wanted(c, final)
  {
    forall p ensures Lookup(inherited, answers, p) == if p in final then Some(final[p].value) else None {
      LastIsFinal(inherited, answers, final, p);
    }
    forall value ensures Truthy(Some(value)) <==> !IsFalse(value) {
      TruthyIsNotFalse(value);
    }
  }

  /** A question is asked exactly when its condition holds on the final values: those the answers
      leave, else the environment's, else the file's. Its answer is then the final value. */
  lemma {:induction false} AskedOnFinalValues<P(!new)>(settings: seq<Setting<P>>, environment: map<P, Raw>,
          file: map<P, Raw>, inherited: Inherited<P>, frontend: P -> Reply, final: map<P, SettingValue<Raw>>, i: nat)
    requires AskedInOrder(settings) && i < |settings| && Inherits(environment, file, inherited)
    requires Chooses(inherited, Asked(settings, inherited, frontend, |settings|), final)
    ensures var answers := Asked(settings, inherited, frontend, |settings|);
      var s := settings[i];
      && (s.path in answers <==> s.question.Some? && Wanted(s.askedWhen, final))
      && (s.path in answers ==>
            final[s.path].value == Answer(s.question.value, InheritedValue(inherited, s.path), frontend(s.path)))
    ensures forall p :: p in final ==>
      var answers := Asked(settings, inherited, frontend, |settings|);
      final[p].value == if p in answers then answers[p] else if p in environment then environment[p] else file[p]
  {
    var answers := Asked(settings, inherited, frontend, |settings|);
    AskedOnLastValues(settings, inherited, frontend, i);
    HoldsWhenWanted(settings[i].askedWhen, inherited, answers, final);
  }

  /** Without the order the two can differ: a condition on a setting asked later is decided by
      the inherited value, and may hold on the final ones. */
  lemma LaterAnswerComesTooLate<P(!new)>(a: P, b: P, question: Question, reply: Reply, final: map<P, SettingValue<Raw>>)
    requires a != b && reply.on && question.Switch?
    requires var settings := [Setting(a, Some(question), When(b)), Setting(b, Some(question), Always)];
      Chooses(map[], Asked(settings, map[], (p: P) => reply, 2), final)
    ensures var settings := [Setting(a, Some(question), When(b)), Setting(b, Some(question), Always)];
      a !in Asked(settings, map[], (p: P) => reply, 2) && Wanted(settings[0].askedWhen, final)
  {
    var settings := [Setting(a, Some(question), When(b)), Setting(b, Some(question), Always)];
    var frontend := (p: P) => reply;
    assert Asked(settings, map[], frontend, 1) == map[];
    assert Asked(settings, map[], frontend, 2) == map[b := RBool(true)];
  }

  predicate SameTexts(a: seq<Raw>, b: seq<Raw>) {
    && (forall v :: v in a ==> exists w :: w in b && Shown(w) == Shown(v))
    && (forall w :: w in b ==> exists v :: v in a && Shown(v) == Shown(w))
  }

  lemma TextsAreSame(a: seq<Raw>, b: seq<Raw>)
    ensures Texts(a) == Texts(b) <==> SameTexts(a, b)
  {
    if Texts(a) == Texts(b) {
      forall v | v in a
        ensures exists w :: w in b && Shown(w) == Shown(v)
      {
        assert Shown(v) in Texts(b);
      }
      forall w | w in b
        ensures exists v :: v in a && Shown(v) == Shown(w)
      {
        assert Shown(w) in Texts(a);
      }
    }
  }

  /** What a reply makes of a setting: a switch and a text are as replied, and so is a choice
      where there is one to make; a secret that is kept and a selection of the same items stay
      as they were inherited, with their source; all else is as replied. */
  lemma RepliesDecide<P(!new)>(inherited: Inherited<P>, p: P, question: Question, reply: Reply)
    ensures var answer := Answer(question, InheritedValue(inherited, p), reply);
      match question
      case Switch(_, _) => answer == RBool(reply.on)
      case ChooseOne(choices) => answer == if |choices| == 0 then RStr(reply.text) else reply.chosen
      case ChooseMany =>
        if p in inherited && inherited[p].value.RList? && SameTexts(reply.many, inherited[p].value.items)
        then Chosen(inherited, p, answer) == inherited[p] else answer == RList(reply.many)
      case EnterText => answer == RStr(reply.text)
      case EnterSecret =>
        if reply.keep && p in inherited && !IsFalse(inherited[p].value)
        then Chosen(inherited, p, answer) == inherited[p] else answer == RStr(reply.text)
  {
    if p in inherited {
      TruthyIsNotFalse(inherited[p].value);
      if inherited[p].value.RList? {
        TextsAreSame(reply.many, inherited[p].value.items);
      }
    }
  }

  // ------------------------------------------------------------------ the session

  /** A row of the review: the setting, the text shown for its value, and the value's source. */
  datatype SummaryRow<P> = SummaryRow(path: P, shown: string, source: Origin)

  /** The settings asked, in order. */
  function AskedSettings<P>(settings: seq<Setting<P>>, inherited: Inherited<P>, frontend: P -> Reply,
          k: nat): seq<Setting<P>>
    requires k <= |settings|
  {
    if k == 0 then []
    else
      var before := AskedSettings(settings, inherited, frontend, k - 1);
      var s := settings[k - 1];
      if s.question.Some? && Holds(s.askedWhen, inherited, Asked(settings, inherited, frontend, k - 1))
      then before + [s] else before
  }

  lemma {:induction false} AskedAreAnswered<P>(settings: seq<Setting<P>>, inherited: Inherited<P>,
          frontend: P -> Reply, k: nat)
    requires k <= |settings|
    ensures forall s :: s in AskedSettings(settings, inherited, frontend, k) ==>
      s.path in Asked(settings, inherited, frontend, k) && s.question.Some?
    ensures forall p :: p in Asked(settings, inherited, frontend, k) ==>
      exists s :: s in AskedSettings(settings, inherited, frontend, k) && s.path == p
  {
    if k > 0 {
      AskedAreAnswered(settings, inherited, frontend, k - 1);
      var before := AskedSettings(settings, inherited, frontend, k - 1);
      forall p | p in Asked(settings, inherited, frontend, k)
        ensures exists s :: s in AskedSettings(settings, inherited, frontend, k) && s.path == p
      {
        if p in Asked(settings, inherited, frontend, k - 1) {
          var s :| s in before && s.path == p;
          assert s in AskedSettings(settings, inherited, frontend, k);
        } else {
          assert settings[k - 1] in AskedSettings(settings, inherited, frontend, k);
        }
      }
    }
  }

  function OfferedText(choices: seq<Choice>, value: Raw): string {
    if choices == [] then Shown(value)
    else if choices[0].value == value then choices[0].text
    else OfferedText(choices[1..], value)
  }

  /** What the review shows for a value. A secret shows only whether there is one. */
  function ShownAs(question: Question, value: Raw): string {
    match question
    case EnterSecret => if Truthy(Some(value)) then "set" else "not set"
    case Switch(on, off) => if Truthy(Some(value)) then on else off
    case ChooseMany => if value.RList? && value.items != [] then ShownItems(value.items) else "none"
    case ChooseOne(choices) => OfferedText(choices, value)
    case EnterText => Shown(value)
  }

  /** Choice i is the first one with the value. */
  predicate FirstWith(choices: seq<Choice>, value: Raw, i: nat)
    requires i < |choices|
  {
    choices[i].value == value && forall j :: 0 <= j < i ==> choices[j].value != value
  }

  /** The review never shows a secret, only whether there is one; a switch shows its state, and a
      choice the text it was offered with. */
  lemma {:induction false} ReviewShows(question: Question, value: Raw)
    ensures question.EnterSecret? ==> ShownAs(question, value) == if IsFalse(value) then "not set" else "set"
    ensures question.Switch? ==> ShownAs(question, value) == if IsFalse(value) then question.offLabel else question.onLabel
    ensures question.ChooseMany? && value == RList([]) ==> ShownAs(question, value) == "none"
    ensures question.EnterText? && value.RStr? ==> ShownAs(question, value) == value.text
    ensures question.ChooseOne? ==>
      forall i :: 0 <= i < |question.choices| && FirstWith(question.choices, value, i) ==>
        ShownAs(question, value) == question.choices[i].text
  {
    TruthyIsNotFalse(value);
    if question.ChooseOne? {
      forall i | 0 <= i < |question.choices| {
        FirstOffered(question.choices, value, i);
      }
    }
  }

  lemma {:induction false} FirstOffered(choices: seq<Choice>, value: Raw, i: nat)
    requires i < |choices|
    ensures FirstWith(choices, value, i) ==> OfferedText(choices, value) == choices[i].text
  {
    if i > 0 && choices[0].value != value {
      assert forall j :: 1 <= j < |choices| ==> choices[1..][j - 1] == choices[j];
      FirstOffered(choices[1..], value, i - 1);
    }
  }

  class SetupSession<P(!new, ==)> {
    const inherited: Inherited<P>
    var answers: Answers<P>
    var asked: seq<Setting<P>>

    constructor (inherited: Inherited<P>)
      ensures this.inherited == inherited && answers == map[] && asked == []
    {
      this.inherited := inherited;
      answers := map[];
      asked := [];
    }

    method Ask(setting: Setting<P>, reply: Reply)
      requires setting.question.Some?
      modifies this
      ensures answers == old(answers)[setting.path := Answer(setting.question.value, InheritedValue(inherited, setting.path), reply)]
      ensures asked == old(asked) + [setting]
    {
      answers := answers[setting.path := Answer(setting.question.value, InheritedValue(inherited, setting.path), reply)];
      asked := asked + [setting];
    }

    /** The loop of `run_setup`. */
    method AskAll(settings: seq<Setting<P>>, frontend: P -> Reply)
      requires answers == map[] && asked == []
      modifies this
      ensures answers == Asked(settings, inherited, frontend, |settings|)
      ensures asked == AskedSettings(settings, inherited, frontend, |settings|)
    {
      var i := 0;
      while i < |settings|
        invariant 0 <= i <= |settings|
        invariant answers == Asked(settings, inherited, frontend, i)
        invariant asked == AskedSettings(settings, inherited, frontend, i)
      {
        if settings[i].question.Some? && Holds(settings[i].askedWhen, inherited, answers) {
          Ask(settings[i], frontend(settings[i].path));
        }
        i := i + 1;
      }
    }

    /** The review has a row for every question asked, showing the final value and its source. */
    method Summary() returns (rows: seq<SummaryRow<P>>)
      requires forall s :: s in asked ==> s.path in answers && s.question.Some?
      ensures |rows| == |asked|
      ensures forall i :: 0 <= i < |rows| ==>
        rows[i] == SummaryRow(asked[i].path, ShownAs(asked[i].question.value, answers[asked[i].path]),
                              Chosen(inherited, asked[i].path, answers[asked[i].path]).source)
    {
      var final := ApplyTuiChoices(inherited, answers);
      rows := [];
      var i := 0;
      while i < |asked|
        invariant 0 <= i <= |asked| && |rows| == i
        invariant forall j :: 0 <= j < i ==>
          rows[j] == SummaryRow(asked[j].path, ShownAs(asked[j].question.value, answers[asked[j].path]),
                                Chosen(inherited, asked[j].path, answers[asked[j].path]).source)
      {
        var s := asked[i];
        assert s in asked;
        var entry := final[s.path];
        assert entry.value == answers[s.path];
        rows := rows + [SummaryRow(s.path, ShownAs(s.question.value, entry.value), entry.source)];
        i := i + 1;
      }
    }
  }

  /** `run_setup`: a row for every question asked, and the answers when the review accepts. */
  method RunSetup<P(!new, ==)>(settings: seq<Setting<P>>, inherited: Inherited<P>, frontend: P -> Reply,
                               accepts: seq<SummaryRow<P>> -> bool)
    returns (answers: Option<Answers<P>>, rows: seq<SummaryRow<P>>)
    ensures answers == if accepts(rows) then Some(Asked(settings, inherited, frontend, |settings|)) else None
    ensures var asked := AskedSettings(settings, inherited, frontend, |settings|);
      var final := Asked(settings, inherited, frontend, |settings|);
      |rows| == |asked| && forall i :: 0 <= i < |rows| ==>
        asked[i].path in final && asked[i].question.Some?
        && rows[i] == SummaryRow(asked[i].path, ShownAs(asked[i].question.value, final[asked[i].path]),
                                 Chosen(inherited, asked[i].path, final[asked[i].path]).source)
    ensures forall p :: p in Asked(settings, inherited, frontend, |settings|) <==>
      exists i :: 0 <= i < |rows| && rows[i].path == p
  {
    var session := new SetupSession(inherited);
    session.AskAll(settings, frontend);
    AskedAreAnswered(settings, inherited, frontend, |settings|);
    rows := session.Summary();
    forall p | p in session.answers
      ensures exists i :: 0 <= i < |rows| && rows[i].path == p
    {
      var s :| s in session.asked && s.path == p;
      var i :| 0 <= i < |session.asked| && session.asked[i] == s;
      assert rows[i].path == p;
    }
    answers := if accepts(rows) then Some(session.answers) else None;
  }
}
