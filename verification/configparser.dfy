/** Turning the text of a `progress-bar` block into a bar configuration (`ProgressBar`'s
    constructor defaults and `parseSource` in main.js).

    The text is cut into items on runs of newlines and commas; each item is cut on every colon
    and its first two pieces, trimmed, are the key and the value. Recognised keys overwrite the
    matching field, in order, so the last occurrence wins; other keys are ignored. An item whose
    key is `name` but which has no colon has no value, and `value.replace` then throws: the whole
    construction fails. After the items, an empty name is replaced by `bar-` and a random token.
 */
module ConfigParser {
  import opened Results
  import opened JsString
  import opened JsNumber

  /** The plugin-wide settings the parser and the legend read. `total` is stored with the
      settings but nothing in the bar reads it. */
  datatype Settings = Settings(
    progressTerm: string,
    totalTerm: string,
    barColor: string,
    backgroundColor: string,
    animation: string,
    transitionDuration: string,
    legendFontSize: string,
    total: Num,
    enableResetOnRightClick: bool)

  const DefaultSettings: Settings :=
    Settings("current_progress", "total", "#4caf50", "#e0e0e0", "smooth", "0.5s", "0.8em", Int(100), true)

  /** The fields `parseSource` may set. `None` is `undefined`: a recognised key without a value
      stores `undefined` in a text field. `initialProgress` is the bar's `progress` field as the
      parser leaves it. */
  datatype Config = Config(
    initialProgress: Num,
    total: Num,
    increment: Num,
    color: Option<string>,
    backgroundColor: Option<string>,
    width: Option<string>,
    height: Option<string>,
    legend: Option<string>,
    animation: Option<string>,
    transitionDuration: Option<string>,
    legendFontSize: Option<string>,
    name: string)

  /** The constructor's values before the text is parsed: `total` is never assigned. */
  function Defaults(settings: Settings): (c: Config)
    ensures c.total == Undefined && c.name == []
  {
    Config(
      Int(0), Undefined, Int(10),
      Some(settings.barColor), Some(settings.backgroundColor), Some("100%"), Some("30px"), Some(""),
      Some(settings.animation), Some(settings.transitionDuration), Some(settings.legendFontSize),
      "")
  }

  /** The constructor throws a TypeError when a `name` item has no value. */
  datatype ParseError = NameWithoutValue

  /** The keys `parseSource` recognises. */
  datatype Field =
    | InitialProgress | Total | Color | BackgroundColor | Increment | Width | Height
    | Legend | Animation | TransitionDuration | LegendFontSize | Name

  /** The key text of each field. */
  function KeyName(f: Field): string {
    match f
    case InitialProgress => "initialProgress"
    case Total => "total"
    case Color => "color"
    case BackgroundColor => "backgroundColor"
    case Increment => "increment"
    case Width => "width"
    case Height => "height"
    case Legend => "legend"
    case Animation => "animation"
    case TransitionDuration => "transitionDuration"
    case LegendFontSize => "legendFontSize"
    case Name => "name"
  }

  /** The keys of the `if (key === ...) ... else if ...` chain, in its order. */
  const Fields: seq<Field> :=
    [InitialProgress, Total, Color, BackgroundColor, Increment, Width, Height,
     Legend, Animation, TransitionDuration, LegendFontSize, Name]

  /** The first of `fields` whose key is `key`, if any. Keys are compared exactly, case and all. */
  function Lookup(key: string, fields: seq<Field>): (r: Option<Field>)
    ensures r.Some? ==> KeyName(r.value) == key && r.value in fields
    ensures r.None? ==> forall k :: 0 <= k < |fields| ==> KeyName(fields[k]) != key
  {
    if fields == [] then None
    else if KeyName(fields[0]) == key then Some(fields[0])
    else Lookup(key, fields[1..])
  }

  /** Which field a key selects, if any: the chain tests each key in turn. */
  function FieldOf(key: string): (r: Option<Field>)
    ensures r.Some? ==> KeyName(r.value) == key
  {
    Lookup(key, Fields)
  }

  /** Every field has its own key. */
  lemma KeyNameInjective(f: Field, g: Field)
    requires KeyName(f) == KeyName(g)
    ensures f == g
  {
    match f
    case InitialProgress => assert KeyName(g)[0] == 'i' && |KeyName(g)| == 15;
    case Total => assert KeyName(g)[0] == 't' && |KeyName(g)| == 5;
    case Color => assert KeyName(g)[0] == 'c';
    case BackgroundColor => assert KeyName(g)[0] == 'b';
    case Increment => assert KeyName(g)[0] == 'i' && |KeyName(g)| == 9;
    case Width => assert KeyName(g)[0] == 'w';
    case Height => assert KeyName(g)[0] == 'h';
    case Legend => assert KeyName(g)[0] == 'l' && |KeyName(g)| == 6;
    case Animation => assert KeyName(g)[0] == 'a';
    case TransitionDuration => assert KeyName(g)[0] == 't' && |KeyName(g)| == 18;
    case LegendFontSize => assert KeyName(g)[0] == 'l' && |KeyName(g)| == 14;
    case Name => assert KeyName(g)[0] == 'n';
  }

  /** Where a field sits in the chain. */
  function Position(f: Field): (k: nat)
    ensures k < |Fields| && Fields[k] == f
  {
    match f
    case InitialProgress => 0
    case Total => 1
    case Color => 2
    case BackgroundColor => 3
    case Increment => 4
    case Width => 5
    case Height => 6
    case Legend => 7
    case Animation => 8
    case TransitionDuration => 9
    case LegendFontSize => 10
    case Name => 11
  }

  /** The chain recognises exactly the twelve keys, each selecting its own field. */
  lemma FieldOfKeyName(f: Field)
    ensures FieldOf(KeyName(f)) == Some(f)
  {
    var k := Position(f);
    assert KeyName(Fields[k]) == KeyName(f);
    var r := FieldOf(KeyName(f));
    KeyNameInjective(r.value, f);
  }

  /** Only the key `name` selects the name field. */
  lemma FieldOfName(key: string)
    ensures FieldOf(key) == Some(Name) <==> key == "name"
  {
    FieldOfKeyName(Name);
  }

  // ---------------------------------------------------------------------------------------------
  // Name sanitising
  // ---------------------------------------------------------------------------------------------

  predicate IsAsciiLetter(c: char) {
    'a' <= c <= 'z' || 'A' <= c <= 'Z'
  }

  predicate AllLetters(s: string) {
    forall k :: 0 <= k < |s| ==> IsAsciiLetter(s[k])
  }

  /** `value.replace(/[^a-zA-Z]/g, '')`. */
  function KeepLetters(s: string): (r: string)
    ensures AllLetters(r)
    ensures |r| <= |s|
  {
    if s == [] then []
    else (if IsAsciiLetter(s[0]) then [s[0]] else []) + KeepLetters(s[1..])
  }

  /** Sanitising works character by character and keeps the order: it distributes over
      concatenation. */
  lemma {:induction false} KeepLettersAppend(a: string, b: string)
    ensures KeepLetters(a + b) == KeepLetters(a) + KeepLetters(b)
    decreases |a|
  {
    if a == [] {
      assert a + b == b;
    } else {
      assert (a + b)[1..] == a[1..] + b;
      KeepLettersAppend(a[1..], b);
    }
  }

  /** A single character survives exactly when it is an ASCII letter. */
  lemma KeepLettersChar(c: char)
    ensures KeepLetters([c]) == if IsAsciiLetter(c) then [c] else []
  {
    assert [c][1..] == [];
  }

  /** A name that is already alphabetic is left as it is; so sanitising twice is sanitising once. */
  lemma {:induction false} KeepLettersOfLetters(s: string)
    requires AllLetters(s)
    ensures KeepLetters(s) == s
  {
    if s != [] {
      KeepLettersOfLetters(s[1..]);
    }
  }

  lemma KeepLettersExample()
    ensures KeepLetters("A1b2!") == "Ab"
  {
    assert "A1b2!"[1..] == "1b2!";
    assert "1b2!"[1..] == "b2!";
    assert "b2!"[1..] == "2!";
    assert "2!"[1..] == "!";
    assert "!"[1..] == "";
  }

  // ---------------------------------------------------------------------------------------------
  // One item
  // ---------------------------------------------------------------------------------------------

  /** A key and its value (`undefined` when the item has no colon). */
  datatype Entry = Entry(key: string, value: Option<string>)

  /** `const [key, value] = param.split(':').map(str => str.trim())`. */
  function KeyValue(item: string): Entry {
    var pieces := Split(item, ':');
    Entry(Trim(pieces[0]), if |pieces| >= 2 then Some(Trim(pieces[1])) else None)
  }

  /** The key is the trimmed text before the first colon and the value the trimmed text between
      the first and the second colon; anything after a second colon is dropped. */
  lemma KeyValueOfPieces(pieces: seq<string>)
    requires |pieces| >= 2
    requires forall k :: 0 <= k < |pieces| ==> Lacks(pieces[k], ':')
    ensures KeyValue(Join(pieces, ':')) == Entry(Trim(pieces[0]), Some(Trim(pieces[1])))
  {
    SplitJoin(pieces, ':');
  }

  /** An item without a colon is a key without a value. */
  lemma KeyValueWithoutColon(item: string)
    requires Lacks(item, ':')
    ensures KeyValue(item) == Entry(Trim(item), None)
  {
  }

  /** Text after a second colon is dropped: `legend: a: b` sets the legend to `a`. */
  lemma SecondColonCuts()
    ensures KeyValue("legend: a: b") == Entry("legend", Some("a"))
  {
    var pieces := ["legend", " a", " b"];
    assert Join(pieces[1..][1..], ':') == " b";
    assert Join(pieces[1..], ':') == " a" + ":" + " b";
    assert Join(pieces, ':') == "legend" + ":" + (" a" + ":" + " b");
    assert "legend" + ":" + (" a" + ":" + " b") == "legend: a: b" by {}
    forall k | 0 <= k < |pieces|
      ensures Lacks(pieces[k], ':')
    {
    }
    KeyValueOfPieces(pieces);
    SecondColonTrims();
  }

  lemma SecondColonTrims()
    ensures Trim("legend") == "legend" && Trim(" a") == "a"
  {
    TrimOfTrimmed("legend");
    assert " " + "a" == " a" by {}
    TrimOfIndented(" ", "a");
  }

  /** The assignment the `forEach` body makes for a selected field and a value. */
  function Assign(cfg: Config, field: Option<Field>, value: Option<string>): (r: Result<Config, ParseError>)
    ensures field.None? ==> r == Success(cfg)
    ensures r.Failure? <==> field == Some(Name) && value.None?
  {
    match field
    case None => Success(cfg)
    case Some(InitialProgress) => Success(cfg.(initialProgress := ParseIntOf(value)))
    case Some(Total) => Success(cfg.(total := ParseIntOf(value)))
    case Some(Color) => Success(cfg.(color := value))
    case Some(BackgroundColor) => Success(cfg.(backgroundColor := value))
    case Some(Increment) => Success(cfg.(increment := ParseIntOf(value)))
    case Some(Width) => Success(cfg.(width := value))
    case Some(Height) => Success(cfg.(height := value))
    case Some(Legend) => Success(cfg.(legend := value))
    case Some(Animation) => Success(cfg.(animation := value))
    case Some(TransitionDuration) => Success(cfg.(transitionDuration := value))
    case Some(LegendFontSize) => Success(cfg.(legendFontSize := value))
    case Some(Name) =>
      match value
      case None => Failure(NameWithoutValue)
      case Some(v) => Success(cfg.(name := KeepLetters(v)))
  }

  /** The key and value of every item, in order. Cutting an item never throws, so the
      `forEach`, which cuts each item and then assigns, is the same as cutting every item first
      and then assigning the entries in order (`ApplyItemsIsApplyEntries`). */
  function Entries(items: seq<string>): (es: seq<Entry>)
    ensures |es| == |items|
    ensures forall k :: 0 <= k < |items| ==> es[k] == KeyValue(items[k])
  {
    seq(|items|, k requires 0 <= k < |items| => KeyValue(items[k]))
  }

  /** One pass of the `forEach` body: an entry whose key is not recognised changes nothing, and
      only a `name` entry without a value fails. */
  function ApplyEntry(cfg: Config, e: Entry): (r: Result<Config, ParseError>)
    ensures FieldOf(e.key).None? ==> r == Success(cfg)
    ensures r.Failure? <==> e == Entry("name", None)
  {
    FieldOfName(e.key);
    Assign(cfg, FieldOf(e.key), e.value)
  }

  /** The `forEach` over all entries, in order: the entries before the last are applied first,
      and a failure stops everything. */
  function ApplyEntries(cfg: Config, es: seq<Entry>): Result<Config, ParseError> {
    if es == [] then Success(cfg)
    else
      var c :- ApplyEntries(cfg, es[..|es| - 1]);
      ApplyEntry(c, es[|es| - 1])
  }

  /** The `forEach` as the code writes it: each item is cut into key and value and assigned in
      turn, and a failure stops the rest. */
  function ApplyItems(cfg: Config, items: seq<string>): Result<Config, ParseError> {
    if items == [] then Success(cfg)
    else
      var c :- ApplyItems(cfg, items[..|items| - 1]);
      ApplyEntry(c, KeyValue(items[|items| - 1]))
  }

  /** Cutting every item first and then assigning the entries in order is the per-item `forEach`. */
  lemma {:induction false} ApplyItemsIsApplyEntries(cfg: Config, items: seq<string>)
    ensures ApplyItems(cfg, items) == ApplyEntries(cfg, Entries(items))
  {
    if items != [] {
      var ps := items[..|items| - 1];
      ApplyItemsIsApplyEntries(cfg, ps);
      assert Entries(items)[..|items| - 1] == Entries(ps);
    }
  }

  // ---------------------------------------------------------------------------------------------
  // What the entries mean, stated without the fold
  // ---------------------------------------------------------------------------------------------

  /** The value of the last entry whose key selects `f`; `None` when no entry does. */
  function LastValue(es: seq<Entry>, f: Field): Option<Option<string>> {
    if es == [] then None
    else if FieldOf(es[|es| - 1].key) == Some(f) then Some(es[|es| - 1].value)
    else LastValue(es[..|es| - 1], f)
  }

  function TextField(raw: Option<Option<string>>, default: Option<string>): Option<string> {
    match raw
    case None => default
    case Some(v) => v
  }

  function NumberField(raw: Option<Option<string>>, default: Num): Num {
    match raw
    case None => default
    case Some(v) => ParseIntOf(v)
  }

  function NameField(raw: Option<Option<string>>, default: string): string {
    match raw
    case Some(Some(v)) => KeepLetters(v)
    case _ => default
  }

  /** Every recognised field holds what the last entry with its key says, or its starting value
      when no entry names it. */
  function LastWins(cfg: Config, es: seq<Entry>): Config {
    Config(
      NumberField(LastValue(es, InitialProgress), cfg.initialProgress),
      NumberField(LastValue(es, Total), cfg.total),
      NumberField(LastValue(es, Increment), cfg.increment),
      TextField(LastValue(es, Color), cfg.color),
      TextField(LastValue(es, BackgroundColor), cfg.backgroundColor),
      TextField(LastValue(es, Width), cfg.width),
      TextField(LastValue(es, Height), cfg.height),
      TextField(LastValue(es, Legend), cfg.legend),
      TextField(LastValue(es, Animation), cfg.animation),
      TextField(LastValue(es, TransitionDuration), cfg.transitionDuration),
      TextField(LastValue(es, LegendFontSize), cfg.legendFontSize),
      NameField(LastValue(es, Name), cfg.name))
  }

  /** Some entry is a `name` key with no value. */
  predicate HasNameWithoutValue(es: seq<Entry>) {
    exists k :: 0 <= k < |es| && es[k] == Entry("name", None)
  }

  /** Applying the entries one by one fails exactly when some `name` entry has no value, and
      otherwise gives the configuration in which the last occurrence of every key wins. */
  lemma {:induction false} ApplyEntriesMeaning(cfg: Config, es: seq<Entry>)
    ensures ApplyEntries(cfg, es).Failure? <==> HasNameWithoutValue(es)
    ensures ApplyEntries(cfg, es).Success? ==> ApplyEntries(cfg, es).value == LastWins(cfg, es)
  {
    if es != [] {
      var ps, e := es[..|es| - 1], es[|es| - 1];
      assert es == ps + [e];
      ApplyEntriesMeaning(cfg, ps);
      var before := ApplyEntries(cfg, ps);
      if before.Failure? {
        assert ApplyEntries(cfg, es) == Failure(before.error);
        var k :| 0 <= k < |ps| && ps[k] == Entry("name", None);
        assert es[k] == Entry("name", None);
      } else {
        var r := ApplyEntry(before.value, e);
        assert ApplyEntries(cfg, es) == r;
        if e == Entry("name", None) {
          assert es[|es| - 1] == Entry("name", None);
        } else {
          NoNameWithoutValueStep(ps, e);
          var field := FieldOf(e.key);
          FieldOfName(e.key);
          LastWinsStep(cfg, ps, e, field);
          assert r == Assign(before.value, field, e.value);
        }
      }
    }
  }

  lemma NoNameWithoutValueStep(ps: seq<Entry>, e: Entry)
    requires !HasNameWithoutValue(ps) && e != Entry("name", None)
    ensures !HasNameWithoutValue(ps + [e])
  {
    var es := ps + [e];
    assert forall k :: 0 <= k < |ps| ==> es[k] == ps[k];
  }

  lemma LastValueStep(ps: seq<Entry>, e: Entry, field: Option<Field>, f: Field)
    requires FieldOf(e.key) == field
    ensures LastValue(ps + [e], f) == if field == Some(f) then Some(e.value) else LastValue(ps, f)
  {
    var es := ps + [e];
    assert es[..|es| - 1] == ps;
  }

  lemma LastValuesStep(ps: seq<Entry>, e: Entry, field: Option<Field>)
    requires FieldOf(e.key) == field
    ensures forall f: Field :: LastValue(ps + [e], f) == if field == Some(f) then Some(e.value) else LastValue(ps, f)
  {
    forall f: Field
      ensures LastValue(ps + [e], f) == if field == Some(f) then Some(e.value) else LastValue(ps, f)
    {
      LastValueStep(ps, e, field, f);
    }
  }

  lemma LastWinsStep(cfg: Config, ps: seq<Entry>, e: Entry, field: Option<Field>)
    requires FieldOf(e.key) == field
    requires !(field == Some(Name) && e.value.None?)
    ensures Assign(LastWins(cfg, ps), field, e.value) == Success(LastWins(cfg, ps + [e]))
  {
    LastValuesStep(ps, e, field);
    match field
    case None =>
    case Some(f) =>
      if f == InitialProgress || f == Total || f == Increment {
        NumberStep(cfg, ps, e, f);
      } else if f == Name {
        NameStep(cfg, ps, e);
      } else if f == Color || f == BackgroundColor || f == Width || f == Height {
        TextStep(cfg, ps, e, f);
      } else {
        StyleStep(cfg, ps, e, f);
      }
  }

  lemma NumberStep(cfg: Config, ps: seq<Entry>, e: Entry, f: Field)
    requires f == InitialProgress || f == Total || f == Increment
    requires forall g: Field :: LastValue(ps + [e], g) == if f == g then Some(e.value) else LastValue(ps, g)
    ensures Assign(LastWins(cfg, ps), Some(f), e.value) == Success(LastWins(cfg, ps + [e]))
  {
    var w, w' := LastWins(cfg, ps), LastWins(cfg, ps + [e]);
    match f
    case InitialProgress => assert w' == w.(initialProgress := ParseIntOf(e.value));
    case Total => assert w' == w.(total := ParseIntOf(e.value));
    case Increment => assert w' == w.(increment := ParseIntOf(e.value));
  }

  lemma NameStep(cfg: Config, ps: seq<Entry>, e: Entry)
    requires e.value.Some?
    requires forall g: Field :: LastValue(ps + [e], g) == if Name == g then Some(e.value) else LastValue(ps, g)
    ensures Assign(LastWins(cfg, ps), Some(Name), e.value) == Success(LastWins(cfg, ps + [e]))
  {
    var w, w' := LastWins(cfg, ps), LastWins(cfg, ps + [e]);
    assert w' == w.(name := KeepLetters(e.value.value));
  }

  lemma TextStep(cfg: Config, ps: seq<Entry>, e: Entry, f: Field)
    requires f == Color || f == BackgroundColor || f == Width || f == Height
    requires forall g: Field :: LastValue(ps + [e], g) == if f == g then Some(e.value) else LastValue(ps, g)
    ensures Assign(LastWins(cfg, ps), Some(f), e.value) == Success(LastWins(cfg, ps + [e]))
  {
    var w, w' := LastWins(cfg, ps), LastWins(cfg, ps + [e]);
    match f
    case Color => assert w' == w.(color := e.value);
    case BackgroundColor => assert w' == w.(backgroundColor := e.value);
    case Width => assert w' == w.(width := e.value);
    case Height => assert w' == w.(height := e.value);
  }

  lemma StyleStep(cfg: Config, ps: seq<Entry>, e: Entry, f: Field)
    requires f == Legend || f == Animation || f == TransitionDuration || f == LegendFontSize
    requires forall g: Field :: LastValue(ps + [e], g) == if f == g then Some(e.value) else LastValue(ps, g)
    ensures Assign(LastWins(cfg, ps), Some(f), e.value) == Success(LastWins(cfg, ps + [e]))
  {
    var w, w' := LastWins(cfg, ps), LastWins(cfg, ps + [e]);
    match f
    case Legend => assert w' == w.(legend := e.value);
    case Animation => assert w' == w.(animation := e.value);
    case TransitionDuration => assert w' == w.(transitionDuration := e.value);
    case LegendFontSize => assert w' == w.(legendFontSize := e.value);
  }

  // ---------------------------------------------------------------------------------------------
  // parseSource
  // ---------------------------------------------------------------------------------------------

  /** `parseSource(source)` on a freshly constructed bar. `token` stands for the random text the
      fallback name is built from. */
  function Parse(settings: Settings, source: string, token: string): (r: Result<Config, ParseError>)
    ensures r.Failure? <==> HasNameWithoutValue(Entries(SplitItems(source)))
    ensures r.Success? ==> r.value.name != []
    ensures r.Success? ==> AllLetters(r.value.name) || r.value.name == "bar-" + token
  {
    var es := Entries(SplitItems(source));
    ApplyEntriesMeaning(Defaults(settings), es);
    var c :- ApplyEntries(Defaults(settings), es);
    Success(if c.name == "" then c.(name := "bar-" + token) else c)
  }

  /** Apart from the name fallback, the parsed configuration is the last-occurrence-wins reading
      of the items, starting from the constructor's values. */
  lemma ParseMeaning(settings: Settings, source: string, token: string)
    ensures var r := Parse(settings, source, token);
            var expected := LastWins(Defaults(settings), Entries(SplitItems(source)));
            r.Success? ==> r.value == if expected.name == [] then expected.(name := "bar-" + token) else expected
  {
    ApplyEntriesMeaning(Defaults(settings), Entries(SplitItems(source)));
  }

  /** The block's items give the bar a name that survives sanitising, so no fallback is drawn. */
  predicate NamedBlock(settings: Settings, source: string) {
    LastWins(Defaults(settings), Entries(SplitItems(source))).name != []
  }

  /** A named block parses the same whatever random token the constructor draws; only a block
      that falls back to a generated name depends on it. */
  lemma ParseIgnoresToken(settings: Settings, source: string, token1: string, token2: string)
    ensures NamedBlock(settings, source) ==> Parse(settings, source, token1) == Parse(settings, source, token2)
    ensures var r := Parse(settings, source, token1);
            r.Success? && !NamedBlock(settings, source) ==> r.value.name == "bar-" + token1
  {
    ParseMeaning(settings, source, token1);
    ParseMeaning(settings, source, token2);
  }
}
