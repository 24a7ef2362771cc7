// Raw theme packs on which the code does not do what it is described to do.
module ThemeWitnesses {
  import opened Common
  import opened Glass
  import opened PackValues
  import opened ThemeStore
  import opened ThemeLayout
  import opened ThemeParse
  import opened ThemeNormal

  /** A version-1 pack with one more section. */
  function PackWith(section: string, content: Json): Json {
    JDict([("format", JStr(PACK_FORMAT)), ("version", JInt(PACK_VERSION)), (section, content)])
  }

  lemma OneSection(section: string, content: Json)
    requires section in {"texts", "buttons", "layout"}
    ensures var d := PackWith(section, content).entries;
      && Get(d, "format") == Some(JStr(PACK_FORMAT)) && VersionOf(d) == Some(PACK_VERSION)
      && forall other :: other in {"texts", "buttons", "layout"} ==>
           Get(d, other) == if other == section then Some(content) else None
  {
    var d := PackWith(section, content).entries;
    SectionNamesDiffer();
    var names := ["format", "version", "name", "source", "texts", "buttons", "layout"];
    assert names[0] == "format" && names[1] == "version" && names[4] == "texts";
    assert names[5] == "buttons" && names[6] == "layout";
    GetAt(d, 0);
    GetAt(d, 1);
    GetAt(d, 2);
    forall other | other in {"texts", "buttons", "layout"} && other != section ensures Get(d, other) == None {
      GetMissing(d, other);
    }
  }

  // ---- one entry of each kind -------------------------------------------------------------------

  lemma OneButton(bot: Bot, key: string, entry: Json)
    ensures ParsedButtons(bot, [(key, entry)]) == [ParsedButton(bot, key, entry)]
  {
    assert [(key, entry)][..0] == [];
    assert ParsedButtons(bot, []) == [];
  }

  lemma OneText(bot: Bot, key: string, langs: Dict<Json>)
    requires |key| <= 100
    ensures ParsedTexts(bot, [(key, JDict(langs))]) == ParsedLangs(bot, key, langs)
    ensures CountTexts([(key, JDict(langs))]) == |langs|
  {
    assert [(key, JDict(langs))][..0] == [];
    assert ParsedTexts(bot, []) == [] && CountTexts([]) == 0;
  }

  lemma TwoLangs(bot: Bot, key: string, one: (string, Json), two: (string, Json))
    ensures ParsedLangs(bot, key, [one, two])
         == [ParsedLang(bot, key, one.0, one.1), ParsedLang(bot, key, two.0, two.1)]
  {
    assert [one, two][..1] == [one] && [one][..0] == [];
    assert ParsedLangs(bot, key, []) == [];
    assert ParsedLangs(bot, key, [one]) == [ParsedLang(bot, key, one.0, one.1)];
  }

  lemma OnlyTexts(bot: Bot, raw: Dict<Json>, texts: Dict<Json>)
    requires CountTexts(texts) <= MAX_ENTRIES && ParsedTexts(bot, texts) != []
    ensures ParsedSections(bot, raw, texts, [], JNull) == Items(ParsedTexts(bot, texts))
  {
    assert ParsedTexts(bot, texts) + [] + [] == ParsedTexts(bot, texts);
  }

  lemma CollectOneButton(item: Item)
    requires item.ButtonItem? && item.paint.Some?
    ensures Collected([item]) != NOTHING
  {
    assert [item][..0] == [];
    assert CollectInto(NOTHING, []) == NOTHING;
    assert CollectInto(NOTHING, [item]) == Collect(NOTHING, item);
  }

  function HiddenListPack(home: string): Json {
    PackWith("layout", JDict([("rows", JList([JList([JStr(home)])])), ("hidden", JList([JList([])]))]))
  }

  /** A layout that places one home key and hides a list makes parsing raise TypeError. */
  lemma HidingAListRaisesTypeError(bot: Bot, home: string)
    requires home in bot.homeKeys && bot.size(HiddenListPack(home)) <= MAX_PACK_BYTES
    ensures ParsedPack(bot, HiddenListPack(home)) == RaisedTypeError
  {
    var raw := HiddenListPack(home);
    var layout := [("rows", JList([JList([JStr(home)])])), ("hidden", JList([JList([])]))];
    OneSection("layout", JDict(layout));
    assert |"rows"| != |"hidden"|;
    GetAt(layout, 0);
    GetAt(layout, 1);
    var row := [JStr(home)];
    assert row[..0] == [] && [JList(row)][..0] == [];
    assert RowMentions(row, bot.homeKeys) == [home];
    assert Mentions([JList(row)], bot.homeKeys) == [home];
    assert Unhashable([JList([])][0]);
    PackRaisesTypeErrorIff(bot, raw);
  }

  /** "「「a」」". */
  const NESTED_LABEL := [GLASS_LEFT, GLASS_LEFT, 'a', GLASS_RIGHT, GLASS_RIGHT]

  function NestedFields(): Dict<Json> {
    [("text", JStr(NESTED_LABEL)), ("style", JStr("primary"))]
  }

  function NestedPack(key: string): Json {
    PackWith("buttons", JDict([(key, JDict(NestedFields()))]))
  }

  lemma NestedPackParses(bot: Bot, key: string)
    requires bot.knownButton(key) && |key| <= 100 && bot.size(NestedPack(key)) <= MAX_PACK_BYTES
    ensures ParsedPack(bot, NestedPack(key)) == Items([ButtonItem(key, PaintOf(bot, NestedFields()))])
    ensures SectionOf(NestedPack(key).entries, "buttons") == JDict([(key, JDict(NestedFields()))])
  {
    var buttons := [(key, JDict(NestedFields()))];
    OneSection("buttons", JDict(buttons));
    AcceptedPackIsItsSections(bot, NestedPack(key), [], buttons, JNull);
    OneButton(bot, key, JDict(NestedFields()));
  }

  /** A pack with one button, plainly styled and twice bracketed, is not stable under normalising. */
  lemma NestedPackChangesAgain(bot: Bot, key: string, name: Json, source: Json)
    requires Sane(bot) && bot.knownButton(key) && |key| <= 100
    requires bot.size(NestedPack(key)) <= MAX_PACK_BYTES
    requires ParsedPack(bot, NestedPack(key)).Items? ==>
      bot.size(PackJson(Collected(ParsedPack(bot, NestedPack(key)).items), name, source)) <= MAX_PACK_BYTES
    ensures var first := ParsedPack(bot, NestedPack(key));
      && first.Items? && Collected(first.items) != NOTHING
      && var again := ParsedPack(bot, PackJson(Collected(first.items), name, source));
         again.Items? && Collected(again.items) != Collected(first.items)
  {
    var buttons := [(key, JDict(NestedFields()))];
    var item := ButtonItem(key, PaintOf(bot, NestedFields()));
    NestedPackParses(bot, key);
    NestedFieldsAreValid(bot);
    CollectOneButton(item);
    assert IsLastValid(bot, buttons, 0) && IsNested(buttons[0].1);
    NormalisingRawAgainChangesNothingIff(bot, NestedPack(key), name, source);
  }

  lemma NestedFieldsAreValid(bot: Bot)
    ensures PaintOf(bot, NestedFields()).Some? && IsNested(JDict(NestedFields()))
  {
    var once := [GLASS_LEFT, 'a', GLASS_RIGHT];
    assert NESTED_LABEL[1..|NESTED_LABEL| - 1] == once;
    assert Trimmed(NESTED_LABEL) && Trimmed(once);
    assert UnglassText(NESTED_LABEL) == once;
    var p := Paint(Some(NESTED_LABEL), Some("primary"), None);
    assert PaintFields(p) == NestedFields();
    FieldsOfPaint(p);
    assert "primary" != GLASS_STYLE by { assert |"primary"| == 7 && |GLASS_STYLE| == 5; }
  }

  function TwoLanguageEntries(first: string, second: string): Dict<Json> {
    [("FA", JDict([("value", JStr(first))])), ("fa", JDict([("value", JStr(second))]))]
  }

  function TwoLanguagePack(key: string, first: string, second: string): Json {
    PackWith("texts", JDict([(key, JDict(TwoLanguageEntries(first, second)))]))
  }

  lemma TwoLanguagesParse(bot: Bot, key: string, first: string, second: string)
    requires bot.lower("FA") == "fa" && bot.lower("fa") == "fa"
    requires ValidText(bot, key, "fa", first) && ValidText(bot, key, "fa", second)
    ensures ParsedLangs(bot, key, TwoLanguageEntries(first, second))
         == [TextItem(key, Some("fa"), Some(first)), TextItem(key, Some("fa"), Some(second))]
  {
    FaIsRead(bot, key, "FA", first);
    FaIsRead(bot, key, "fa", second);
    var langs := TwoLanguageEntries(first, second);
    TwoLangs(bot, key, langs[0], langs[1]);
  }

  lemma FaIsRead(bot: Bot, key: string, lang: string, value: string)
    requires (lang == "FA" || lang == "fa") && bot.lower(lang) == "fa" && ValidText(bot, key, "fa", value)
    ensures ParsedLang(bot, key, lang, JDict([("value", JStr(value))])) == TextItem(key, Some("fa"), Some(value))
  {
    assert Trimmed(lang);
    assert ValueOf(JDict([("value", JStr(value))])) == Some(value);
  }

  lemma TwoLanguagePackParses(bot: Bot, key: string, first: string, second: string)
    requires bot.lower("FA") == "fa" && bot.lower("fa") == "fa"
    requires ValidText(bot, key, "fa", first) && ValidText(bot, key, "fa", second)
    requires bot.size(TwoLanguagePack(key, first, second)) <= MAX_PACK_BYTES
    ensures ParsedPack(bot, TwoLanguagePack(key, first, second))
         == Items([TextItem(key, Some("fa"), Some(first)), TextItem(key, Some("fa"), Some(second))])
  {
    var raw := TwoLanguagePack(key, first, second);
    var texts := [(key, JDict(TwoLanguageEntries(first, second)))];
    assert ParsedPack(bot, raw) == ParsedSections(bot, raw.entries, texts, [], JNull) by {
      OneSection("texts", JDict(texts));
      AcceptedPackIsItsSections(bot, raw, texts, [], JNull);
    }
    TwoLanguagesParse(bot, key, first, second);
    OneText(bot, key, TwoLanguageEntries(first, second));
    OnlyTexts(bot, raw.entries, texts);
  }

  /** A pack naming one language as "FA" and as "fa": both entries are valid and go to one text. Merged over
      a stored text with another value, the apply commits and its undo leaves the first value behind. */
  lemma LanguageNamedTwiceIsNotUndone(bot: Bot, key: string, first: string, second: string, stored: Text)
    requires bot.lower("FA") == "fa" && bot.lower("fa") == "fa"
    requires ValidText(bot, key, "fa", first) && ValidText(bot, key, "fa", second)
    requires stored.value != first && stored.value != second
    requires bot.size(TwoLanguagePack(key, first, second)) <= MAX_PACK_BYTES
    ensures var parsed := ParsedPack(bot, TwoLanguagePack(key, first, second));
      parsed.Items? && LosesText(Store(map[Slot(key, "fa") := stored], map[]), parsed.items)
  {
    TwoLanguagePackParses(bot, key, first, second);
    OneSlotTwiceIsNotUndone(Store(map[Slot(key, "fa") := stored], map[]), Slot(key, "fa"), first, second);
  }
}
