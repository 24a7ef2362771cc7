// The loops of parse_pack, _parse_texts, _parse_buttons and pack_from_items, checked in the source's
// order and proved to read exactly the entries that ThemeParse describes.
module ThemeReader {
  import opened Common
  import opened Glass
  import opened PackValues
  import opened ThemeStore
  import opened ThemeLayout
  import opened ThemeParse
  import opened ThemeNormal

  // ---- which entries are valid, from the raw pack alone ----------------------------------------

  /** A text is accepted under a key of the bot that is not private, in Persian or English, when it is a
      string with something in it, of at most 8192 characters, that the text checks let pass. */
  lemma TextEntryMeans(bot: Bot, key: string, rawLang: string, entry: Json, value: string)
    ensures var item, lang := ParsedLang(bot, key, rawLang, entry), bot.lower(Glass.Strip(rawLang));
      && item.TextItem? && item.key == key
      && item.lang == Some(if |lang| <= 10 then lang else lang[..10])
      && (item.value == Some(value) <==>
            && |key| <= 100 && bot.knownText(key) && !("panel_locations_" <= key)
            && (item.lang == Some("fa") || item.lang == Some("en"))
            && entry.JDict? && Get(entry.entries, "value") == Some(JStr(value))
            && Glass.Strip(value) != "" && |value| <= 8192 && !bot.refuses(key, value))
  {
  }

  /** A label is accepted when the text inside its brackets has 1 to 100 characters. */
  lemma LabelMeans(j: Json, text: string)
    ensures PlainText(j) == Some(text) <==>
      j == JStr(text) && UnglassText(text) != "" && |UnglassText(text)| <= 100
  {
  }

  lemma StyleMeans(j: Json, style: string)
    ensures StyleOf(j) == Some(style) <==>
      && j == JStr(style)
      && (style == "primary" || style == "success" || style == "danger" || style == "glass" || style == "none")
  {
  }

  /** An icon is a number of at most 63 bits, given as one or as its 1 to 19 digits. */
  lemma IconMeans(bot: Bot, j: Json, icon: int)
    requires Sane(bot)
    ensures IconOf(bot, j) == Some(icon) <==>
      || (j == JInt(icon) && 0 <= icon <= 0x7FFF_FFFF_FFFF_FFFF)
      || (j.JStr? && 1 <= |j.text| <= 19 && (forall i :: 0 <= i < |j.text| ==> 0 <= bot.digit(j.text[i]) <= 9)
          && ReadNat(bot.digit, j.text) == icon && icon <= 0x7FFF_FFFF_FFFF_FFFF)
  {
    assert j.JStr? ==> (AllDigits(bot.digit, j.text) <==>
                          forall i :: 0 <= i < |j.text| ==> 0 <= bot.digit(j.text[i]) <= 9);
    if j.JInt? && j.number >= 0 {
      ReadUndoesShow(bot.digit, j.number);
      if j.number < ICON_LIMIT {
        ValidIconParses(bot, j.number);
      }
    }
  }

  /** A button entry says something, every field it has is accepted, and its label is written as its style
      shows it. */
  lemma ButtonEntryMeans(bot: Bot, fields: Dict<Json>, p: Paint)
    ensures var text, style, icon := Get(fields, "text"), Get(fields, "style"), Get(fields, "icon");
      PaintOf(bot, fields) == Some(p) <==>
        && (text != None || style != None || icon != None)
        && (if style == None then p.style == None else p.style != None && StyleOf(style.value) == p.style)
        && (if icon == None then p.icon == None else p.icon != None && IconOf(bot, icon.value) == p.icon)
        && (if text == None then p.text == None
            else
              && PlainText(text.value) != None && p.text != None
              && var plain := UnglassText(PlainText(text.value).value);
                 p.text.value == if p.style == None then PlainText(text.value).value
                                 else if p.style == Some("glass") then GlassText(plain) else plain)
  {
  }

  /** A version is a number, or a boolean, which counts as 1 or 0. */
  lemma VersionMeans(d: Dict<Json>, n: int)
    ensures VersionOf(d) == Some(n) <==>
      || Get(d, "version") == Some(JInt(n))
      || (Get(d, "version") == Some(JBool(true)) && n == 1)
      || (Get(d, "version") == Some(JBool(false)) && n == 0)
  {
  }

  /** A missing or empty section counts as an empty dictionary, whatever its type; any other one is taken as it is. */
  lemma SectionMeans(d: Dict<Json>, name: string)
    ensures var section := Get(d, name);
      SectionOf(d, name) ==
        if section == None || section.value == JNull || section.value == JBool(false) || section.value == JInt(0)
           || section.value == JFloat(0.0) || section.value == JStr("") || section.value == JList([])
           || section.value == JDict([])
        then JDict([]) else section.value
  {
  }

  /** The refusals, in the order they are made, with the limits written out. */
  lemma RefusalsMean(bot: Bot, raw: Json)
    ensures !raw.JDict? ==> ParsedPack(bot, raw) == Refused(NotAPack)
    ensures raw.JDict? ==>
      var d, version := raw.entries, VersionOf(raw.entries);
      var texts, buttons, layout := SectionOf(d, "texts"), SectionOf(d, "buttons"), LayoutSection(d);
      if Get(d, "format") != Some(JStr("kenzo-theme-pack")) || version == None || version.value <= 0 then
        ParsedPack(bot, raw) == Refused(NotAPack)
      else if version.value >= 2 then ParsedPack(bot, raw) == Refused(NewerVersion)
      else if bot.size(raw) > 1000000 then ParsedPack(bot, raw) == Refused(TooLarge)
      else if !texts.JDict? || !buttons.JDict? || (layout != JNull && !layout.JDict?) then
        ParsedPack(bot, raw) == Refused(NotAPack)
      else if CountTexts(texts.entries) + |buttons.entries| > 1000 then ParsedPack(bot, raw) == Refused(TooManyEntries)
      else
        && !(ParsedPack(bot, raw) == Refused(NotAPack)) && !(ParsedPack(bot, raw) == Refused(NewerVersion))
        && !(ParsedPack(bot, raw) == Refused(TooLarge)) && !(ParsedPack(bot, raw) == Refused(TooManyEntries))
  {
  }

  method ParseTexts(bot: Bot, texts: Dict<Json>) returns (items: seq<Item>)
    ensures items == ParsedTexts(bot, texts)
    ensures ValidItems(bot, items) && |items| == CountTexts(texts)
  {
    items := [];
    for n := 0 to |texts|
      invariant items == ParsedTexts(bot, texts[..n])
    {
      TakeNext(texts, n);
      var key, langs := Take(texts[n].0, 100), texts[n].1;
      if !langs.JDict? {
        items := items + [TextItem(key, None, None)];
        continue;
      }
      var more := ParseLangs(bot, key, langs.entries);
      items := items + more;
    }
    TakeAll(texts);
    ParsedTextsAreValid(bot, texts);
  }

  method ParseLangs(bot: Bot, key: string, langs: Dict<Json>) returns (items: seq<Item>)
    requires |key| <= 100
    ensures items == ParsedLangs(bot, key, langs)
  {
    var known := bot.knownText(key) && !IsPrivate(key);
    items := [];
    for n := 0 to |langs|
      invariant items == ParsedLangs(bot, key, langs[..n])
    {
      TakeNext(langs, n);
      var lang, entry := Take(bot.lower(Glass.Strip(langs[n].0)), 10), langs[n].1;
      if !known || lang !in SUPPORTED_LANGUAGES || ValueOf(entry).None? {
        items := items + [TextItem(key, Some(lang), None)];
        continue;
      }
      var value := ValueOf(entry).value;
      var hasErrors := Glass.Strip(value) == [] || |value| > MAX_TEXT_LENGTH || bot.refuses(key, value);
      items := items + [TextItem(key, Some(lang), if hasErrors then None else Some(value))];
    }
    TakeAll(langs);
  }

  method ParseButton(bot: Bot, key: string, entry: Json) returns (paint: Option<Paint>)
    ensures paint == if bot.knownButton(key) && entry.JDict? then PaintOf(bot, entry.entries) else None
  {
    if !bot.knownButton(key) || !entry.JDict? {
      return None;
    }
    var text, style, icon := Get(entry.entries, "text"), Get(entry.entries, "style"), Get(entry.entries, "icon");
    if text.None? && style.None? && icon.None? {
      return None;
    }
    var failed := false;
    var data := Paint(None, None, None);
    if text.Some? {
      if !text.value.JStr? || UnglassText(text.value.text) == [] {
        failed := true;
      } else if |UnglassText(text.value.text)| > MAX_BUTTON_TEXT_LENGTH {
        failed := true;
      } else {
        data := data.(text := Some(text.value.text));
      }
    }
    if style.Some? {
      if !style.value.JStr? || style.value.text !in PACK_STYLES {
        failed := true;
      } else {
        data := data.(style := Some(style.value.text));
      }
    }
    if icon.Some? {
      var number := IconOf(bot, icon.value);
      if number.None? {
        failed := true;
      } else {
        data := data.(icon := number);
      }
    }
    if data.style.Some? && data.text.Some? {
      var plain := UnglassText(data.text.value);
      data := data.(text := Some(if data.style.value == GLASS_STYLE then GlassText(plain) else plain));
    }
    return if failed then None else Some(data);
  }

  method ParseButtons(bot: Bot, buttons: Dict<Json>) returns (items: seq<Item>)
    ensures items == ParsedButtons(bot, buttons)
    ensures ValidItems(bot, items) && |items| == |buttons|
  {
    items := [];
    for n := 0 to |buttons|
      invariant items == ParsedButtons(bot, buttons[..n])
    {
      TakeNext(buttons, n);
      var key := Take(buttons[n].0, 100);
      var paint := ParseButton(bot, key, buttons[n].1);
      items := items + [ButtonItem(key, paint)];
    }
    TakeAll(buttons);
    ParsedButtonsAreValid(bot, buttons);
  }

  // ---- a parsed pack brings one layout at most ------------------------------------------------

  ghost predicate NoLayouts(items: seq<Item>) {
    forall x :: x in items ==> !x.LayoutItem?
  }

  lemma {:induction false} LangsHaveNoLayout(bot: Bot, key: string, langs: Dict<Json>)
    ensures NoLayouts(ParsedLangs(bot, key, langs))
  {
    if langs != [] {
      LangsHaveNoLayout(bot, key, langs[..|langs| - 1]);
    }
  }

  lemma {:induction false} TextsHaveNoLayout(bot: Bot, texts: Dict<Json>)
    ensures NoLayouts(ParsedTexts(bot, texts))
  {
    if texts != [] {
      var last := texts[|texts| - 1];
      TextsHaveNoLayout(bot, texts[..|texts| - 1]);
      if last.1.JDict? {
        LangsHaveNoLayout(bot, Take(last.0, 100), last.1.entries);
      }
    }
  }

  lemma {:induction false} ButtonsHaveNoLayout(bot: Bot, buttons: Dict<Json>)
    ensures NoLayouts(ParsedButtons(bot, buttons))
  {
    if buttons != [] {
      ButtonsHaveNoLayout(bot, buttons[..|buttons| - 1]);
    }
  }

  lemma LayoutComesLast(front: seq<Item>, placed: seq<Item>, home: set<string>)
    requires NoLayouts(front) && |placed| <= 1
    requires forall x :: x in placed ==> x.LayoutItem? && (x.layout.Some? ==> CleanLayout(x.layout.value, home))
    ensures OneLayout(front + placed, home)
  {
    FirstLayoutIsThere(front + placed);
    assert placed != [] ==> placed[0] in front + placed;
  }

  /** Every accepted pack has one layout at most, and a clean one. */
  lemma ParsedPackHasOneLayout(bot: Bot, raw: Json)
    requires ParsedPack(bot, raw).Items?
    ensures OneLayout(ParsedPack(bot, raw).items, bot.homeKeys)
  {
    var texts, buttons := SectionOf(raw.entries, "texts").entries, SectionOf(raw.entries, "buttons").entries;
    var layout := LayoutSection(raw.entries);
    TextsHaveNoLayout(bot, texts);
    ButtonsHaveNoLayout(bot, buttons);
    LayoutItemsAreValid(bot, layout);
    var placed := LayoutItems(layout, bot.homeKeys).items;
    assert forall x :: x in placed ==> x == placed[0] && ValidItem(bot, x);
    LayoutComesLast(ParsedTexts(bot, texts) + ParsedButtons(bot, buttons), placed, bot.homeKeys);
  }

  // ---- the pack --------------------------------------------------------------------------------

  /** Every entry it returns passed its checks, and no more than MAX_ENTRIES of them are kept. */
  method ParsePack(bot: Bot, raw: Json) returns (r: Parsed)
    ensures r == ParsedPack(bot, raw)
    ensures r.Items? ==> ValidItems(bot, r.items) && Size(Collected(r.items)) <= MAX_ENTRIES
    ensures r.Items? ==> OneLayout(r.items, bot.homeKeys)
  {
    if ParsedPack(bot, raw).Items? {
      ParsedPackIsValid(bot, raw);
      ParsedPackHasOneLayout(bot, raw);
    }
    if !raw.JDict? || Get(raw.entries, "format") != Some(JStr(PACK_FORMAT)) {
      return Refused(NotAPack);
    }
    var version := VersionOf(raw.entries);
    if version.None? || version.value < 1 {
      return Refused(NotAPack);
    }
    if version.value > PACK_VERSION {
      return Refused(NewerVersion);
    }
    if bot.size(raw) > MAX_PACK_BYTES {
      return Refused(TooLarge);
    }
    var texts, buttons := SectionOf(raw.entries, "texts"), SectionOf(raw.entries, "buttons");
    var layout := LayoutSection(raw.entries);
    if !texts.JDict? || !buttons.JDict? || !(layout.JNull? || layout.JDict?) {
      return Refused(NotAPack);
    }
    if CountTexts(texts.entries) + |buttons.entries| > MAX_ENTRIES {
      return Refused(TooManyEntries);
    }
    var textItems := ParseTexts(bot, texts.entries);
    var buttonItems := ParseButtons(bot, buttons.entries);
    var items := textItems + buttonItems;
    if layout.JDict? {
      var placed := ParseLayout(layout.entries, bot.homeKeys);
      if placed.TypeError? {
        return RaisedTypeError;
      }
      items := items + [LayoutItem(if placed.Usable? then Some(placed.value) else None)];
    }
    if |items| == 0 {
      var webapp := Get(raw.entries, "webapp");
      return Refused(if webapp.Some? && webapp.value.JDict? then WebappOnly else Empty);
    }
    return Items(items);
  }

  /** Valid entries only, each under its key; a later entry for one key and language wins. */
  method PackFromItems(bot: Bot, items: seq<Item>) returns (c: Clean)
    requires ValidItems(bot, items)
    ensures c == Collected(items)
    ensures ValidClean(bot, c)
  {
    c := NOTHING;
    for n := 0 to |items|
      invariant c == Collected(items[..n])
    {
      TakeNext(items, n);
      match items[n]
      case TextItem(key, Some(lang), Some(value)) =>
        c := c.(texts := SetItem(c.texts, key, SetItem(LangsOf(c.texts, key), lang, value)));
      case ButtonItem(key, Some(paint)) =>
        c := c.(buttons := SetItem(c.buttons, key, paint));
      case LayoutItem(Some(layout)) =>
        c := c.(layout := Some(layout));
      case _ =>
    }
    TakeAll(items);
    CollectedIsValid(bot, NOTHING, items);
  }
}
