// parse_pack and pack_from_items of app/services/theme_pack.py: every entry of a raw pack is checked,
// and the valid ones are written out again as a clean pack.
module ThemeParse {
  import opened Common
  import opened Glass
  import opened PackValues
  import opened ThemeStore
  import opened ThemeLayout

  const PACK_FORMAT := "kenzo-theme-pack"
  const PACK_VERSION := 1
  const MAX_PACK_BYTES := 1_000_000
  const MAX_ENTRIES := 1000
  const MAX_TEXT_LENGTH := 8192
  const MAX_BUTTON_TEXT_LENGTH := 100
  const ICON_LIMIT := 0x8000_0000_0000_0000
  const SUPPORTED_LANGUAGES := {"fa", "en"}
  const PACK_STYLES := {"primary", "success", "danger", "glass", "none"}
  const GLASS_STYLE := "glass"

  /**
   * What the bot brings to parsing: its text keys (catalogued or with a default), the texts its
   * placeholder and HTML checks refuse, its button and home keys, str.lower, the decimal value of a
   * character (negative for none), and the encoded size of a value.
   */
  datatype Bot = Bot(
    knownText: string -> bool,
    refuses: (string, string) -> bool,
    knownButton: string -> bool,
    homeKeys: set<string>,
    lower: string -> string,
    digit: char -> int,
    size: Json -> nat
  )

  ghost predicate Sane(bot: Bot) {
    && KnowsAscii(bot.digit)
    && (forall lang :: lang in SUPPORTED_LANGUAGES ==> bot.lower(lang) == lang)
  }

  function Take(s: string, n: nat): string {
    if |s| <= n then s else s[..n]
  }

  // ---- texts ----------------------------------------------------------------------------------

  predicate ValidText(bot: Bot, key: string, lang: string, value: string) {
    && |key| <= 100 && bot.knownText(key) && !IsPrivate(key)
    && lang in SUPPORTED_LANGUAGES
    && Glass.Strip(value) != [] && |value| <= MAX_TEXT_LENGTH && !bot.refuses(key, value)
  }

  /** The "value" string of a text entry, or None when the entry is malformed. */
  function ValueOf(entry: Json): Option<string> {
    if !entry.JDict? then None
    else
      var value := Get(entry.entries, "value");
      if value.Some? && value.value.JStr? then Some(value.value.text) else None
  }

  function ParsedLang(bot: Bot, key: string, rawLang: string, entry: Json): Item {
    var lang := Take(bot.lower(Glass.Strip(rawLang)), 10);
    var value := ValueOf(entry);
    TextItem(key, Some(lang), if value.Some? && ValidText(bot, key, lang, value.value) then value else None)
  }

  function ParsedLangs(bot: Bot, key: string, langs: Dict<Json>): seq<Item> {
    if langs == [] then []
    else
      var last := langs[|langs| - 1];
      ParsedLangs(bot, key, langs[..|langs| - 1]) + [ParsedLang(bot, key, last.0, last.1)]
  }

  function ParsedKey(bot: Bot, rawKey: string, langs: Json): seq<Item> {
    var key := Take(rawKey, 100);
    if langs.JDict? then ParsedLangs(bot, key, langs.entries) else [TextItem(key, None, None)]
  }

  function ParsedTexts(bot: Bot, texts: Dict<Json>): seq<Item> {
    if texts == [] then []
    else
      var last := texts[|texts| - 1];
      ParsedTexts(bot, texts[..|texts| - 1]) + ParsedKey(bot, last.0, last.1)
  }

  // ---- buttons --------------------------------------------------------------------------------

  function PlainText(j: Json): Option<string> {
    if j.JStr? && Legible(UnglassText(j.text)) then Some(j.text)
    else None
  }

  function StyleOf(j: Json): Option<string> {
    if j.JStr? && j.text in PACK_STYLES then Some(j.text) else None
  }

  /** A string of 1 to 19 digits below 2^63. */
  function IconDigits(bot: Bot, s: string): Option<int> {
    if 1 <= |s| <= 19 && AllDigits(bot.digit, s) && ReadNat(bot.digit, s) < ICON_LIMIT then
      Some(ReadNat(bot.digit, s))
    else None
  }

  /** A negative number fails for its sign, a boolean for its type. */
  function IconOf(bot: Bot, j: Json): Option<int> {
    match j
    case JStr(s) => IconDigits(bot, s)
    case JInt(n) => if n < 0 then None else IconDigits(bot, ShowNat(n))
    case _ => None
  }

  /** With a style, the label is written in the way that style shows it. */
  function Restyled(text: string, style: Option<string>): string {
    if style.None? then text
    else if style.value == GLASS_STYLE then GlassText(UnglassText(text))
    else UnglassText(text)
  }

  function PaintFrom(bot: Bot, text: Option<Json>, style: Option<Json>, icon: Option<Json>): Option<Paint> {
    if text.None? && style.None? && icon.None? then None
    else if text.Some? && PlainText(text.value).None? then None
    else if style.Some? && StyleOf(style.value).None? then None
    else if icon.Some? && IconOf(bot, icon.value).None? then None
    else
      var chosen := if style.Some? then StyleOf(style.value) else None;
      Some(Paint(
        if text.Some? then Some(Restyled(PlainText(text.value).value, chosen)) else None,
        chosen,
        if icon.Some? then IconOf(bot, icon.value) else None
      ))
  }

  function PaintOf(bot: Bot, fields: Dict<Json>): Option<Paint> {
    PaintFrom(bot, Get(fields, "text"), Get(fields, "style"), Get(fields, "icon"))
  }

  function ParsedButton(bot: Bot, rawKey: string, entry: Json): Item {
    var key := Take(rawKey, 100);
    ButtonItem(key, if bot.knownButton(key) && entry.JDict? then PaintOf(bot, entry.entries) else None)
  }

  function ParsedButtons(bot: Bot, buttons: Dict<Json>): seq<Item> {
    if buttons == [] then []
    else
      var last := buttons[|buttons| - 1];
      ParsedButtons(bot, buttons[..|buttons| - 1]) + [ParsedButton(bot, last.0, last.1)]
  }

  // ---- the whole pack -------------------------------------------------------------------------

  datatype PackError = NotAPack | NewerVersion | TooLarge | TooManyEntries | Empty | WebappOnly

  datatype Parsed = Items(items: seq<Item>) | Refused(error: PackError) | RaisedTypeError

  /** isinstance(version, int): a boolean is one too. */
  function VersionOf(raw: Dict<Json>): Option<int> {
    var version := Get(raw, "version");
    if version.None? then None
    else
      match version.value
      case JInt(n) => Some(n)
      case JBool(flag) => Some(if flag then 1 else 0)
      case _ => None
  }

  function SectionOf(raw: Dict<Json>, name: string): Json {
    var section := Get(raw, name);
    if section.Some? && Truthy(section.value) then section.value else JDict([])
  }

  function LayoutSection(raw: Dict<Json>): Json {
    var layout := Get(raw, "layout");
    if layout.Some? then layout.value else JNull
  }

  function CountTexts(texts: Dict<Json>): nat {
    if texts == [] then 0
    else
      var last := texts[|texts| - 1].1;
      CountTexts(texts[..|texts| - 1]) + (if last.JDict? then |last.entries| else 1)
  }

  function LayoutItems(layout: Json, homeKeys: set<string>): Parsed {
    if !layout.JDict? then Items([])
    else
      match ParsedLayout(layout.entries, homeKeys)
      case Usable(l) => Items([LayoutItem(Some(l))])
      case Invalid => Items([LayoutItem(None)])
      case TypeError => RaisedTypeError
  }

  function ParsedSections(bot: Bot, raw: Dict<Json>, texts: Dict<Json>, buttons: Dict<Json>, layout: Json): Parsed {
    if CountTexts(texts) + |buttons| > MAX_ENTRIES then Refused(TooManyEntries)
    else
      var placed := LayoutItems(layout, bot.homeKeys);
      if placed.RaisedTypeError? then placed
      else
        var items := ParsedTexts(bot, texts) + ParsedButtons(bot, buttons) + placed.items;
        if items != [] then Items(items)
        else if Get(raw, "webapp").Some? && Get(raw, "webapp").value.JDict? then Refused(WebappOnly)
        else Refused(Empty)
  }

  function ParsedPack(bot: Bot, raw: Json): Parsed {
    if !raw.JDict? || Get(raw.entries, "format") != Some(JStr(PACK_FORMAT)) then Refused(NotAPack)
    else
      var d := raw.entries;
      var version := VersionOf(d);
      if version.None? || version.value < 1 then Refused(NotAPack)
      else if version.value > PACK_VERSION then Refused(NewerVersion)
      else if bot.size(raw) > MAX_PACK_BYTES then Refused(TooLarge)
      else
        var texts, buttons, layout := SectionOf(d, "texts"), SectionOf(d, "buttons"), LayoutSection(d);
        if !texts.JDict? || !buttons.JDict? || !(layout.JNull? || layout.JDict?) then Refused(NotAPack)
        else ParsedSections(bot, d, texts.entries, buttons.entries, layout)
  }

  // ---- writing the valid entries out ----------------------------------------------------------

  /** The clean pack's three sections; its texts are grouped by key, then by language. */
  datatype Clean = Clean(texts: Dict<Dict<string>>, buttons: Dict<Paint>, layout: Option<Layout>)

  function LangsOf(texts: Dict<Dict<string>>, key: string): Dict<string> {
    var langs := Get(texts, key);
    if langs.Some? then langs.value else []
  }

  /** texts.setdefault(key, {})[lang] = value */
  function PutText(texts: Dict<Dict<string>>, key: string, lang: string, value: string): Dict<Dict<string>> {
    SetItem(texts, key, SetItem(LangsOf(texts, key), lang, value))
  }

  function Collect(sofar: Clean, item: Item): Clean {
    match item
    case TextItem(key, Some(lang), Some(value)) => sofar.(texts := PutText(sofar.texts, key, lang, value))
    case ButtonItem(key, Some(paint)) => sofar.(buttons := SetItem(sofar.buttons, key, paint))
    case LayoutItem(Some(layout)) => sofar.(layout := Some(layout))
    case _ => sofar
  }

  const NOTHING := Clean([], [], None)

  function CollectInto(sofar: Clean, items: seq<Item>): Clean {
    if items == [] then sofar else Collect(CollectInto(sofar, items[..|items| - 1]), items[|items| - 1])
  }

  function Collected(items: seq<Item>): Clean {
    CollectInto(NOTHING, items)
  }

  function TextFields(langs: Dict<string>): Dict<Json> {
    if langs == [] then []
    else
      var last := langs[|langs| - 1];
      TextFields(langs[..|langs| - 1]) + [(last.0, JDict([("value", JStr(last.1))]))]
  }

  function TextsJson(texts: Dict<Dict<string>>): Dict<Json> {
    if texts == [] then []
    else
      var last := texts[|texts| - 1];
      TextsJson(texts[..|texts| - 1]) + [(last.0, JDict(TextFields(last.1)))]
  }

  /** An icon is written as a decimal string; only icons of at least 0 are ever parsed. */
  function PaintFields(p: Paint): Dict<Json> {
    (if p.text.Some? then [("text", JStr(p.text.value))] else [])
    + (if p.style.Some? then [("style", JStr(p.style.value))] else [])
    + (if p.icon.Some? && p.icon.value >= 0 then [("icon", JStr(ShowNat(p.icon.value)))] else [])
  }

  function ButtonsJson(buttons: Dict<Paint>): Dict<Json> {
    if buttons == [] then []
    else
      var last := buttons[|buttons| - 1];
      ButtonsJson(buttons[..|buttons| - 1]) + [(last.0, JDict(PaintFields(last.1)))]
  }

  /** The clean pack as data; its name and source play no part in parsing. */
  function PackJson(c: Clean, name: Json, source: Json): Json {
    JDict([("format", JStr(PACK_FORMAT)), ("version", JInt(PACK_VERSION)), ("name", name), ("source", source),
           ("texts", JDict(TextsJson(c.texts))), ("buttons", JDict(ButtonsJson(c.buttons)))]
          + if c.layout.Some? then [("layout", JDict(LayoutJson(c.layout.value)))] else [])
  }

  // ---- what a clean pack consists of ----------------------------------------------------------

  predicate ValidLangs(bot: Bot, key: string, langs: Dict<string>) {
    && langs != [] && UniqueKeys(langs)
    && forall i :: 0 <= i < |langs| ==> ValidText(bot, key, langs[i].0, langs[i].1)
  }

  predicate ValidTexts(bot: Bot, texts: Dict<Dict<string>>) {
    UniqueKeys(texts) && forall i :: 0 <= i < |texts| ==> ValidLangs(bot, texts[i].0, texts[i].1)
  }

  /** A look the parser produces: something to set, a legible label, a known style, an icon in range. */
  predicate ValidPaint(p: Paint) {
    && (p.text.Some? || p.style.Some? || p.icon.Some?)
    && (p.style.Some? ==> p.style.value in PACK_STYLES)
    && (p.icon.Some? ==> 0 <= p.icon.value < ICON_LIMIT)
    && (p.text.Some? ==> ValidLabel(p.text.value, p.style))
  }

  predicate Legible(plain: string) {
    plain != [] && |plain| <= MAX_BUTTON_TEXT_LENGTH
  }

  /** A text without style is as it came; one with a style is written the way the style shows it. */
  predicate ValidLabel(text: string, style: Option<string>) {
    if style.None? then Legible(UnglassText(text))
    else if style.value == GLASS_STYLE then text == GlassText(UnglassText(text)) && Legible(UnglassText(text))
    else Trimmed(text) && Legible(text)
  }

  predicate ValidButtons(bot: Bot, buttons: Dict<Paint>) {
    && UniqueKeys(buttons)
    && forall i :: 0 <= i < |buttons| ==>
         |buttons[i].0| <= 100 && bot.knownButton(buttons[i].0) && ValidPaint(buttons[i].1)
  }

  ghost predicate ValidClean(bot: Bot, c: Clean) {
    && ValidTexts(bot, c.texts)
    && ValidButtons(bot, c.buttons)
    && (c.layout.Some? ==> CleanLayout(c.layout.value, bot.homeKeys))
  }
}
