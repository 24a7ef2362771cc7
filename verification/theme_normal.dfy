// Writing a parsed theme pack out and parsing it again: what a clean pack is made of, and exactly when
// the second pass changes nothing.
module ThemeNormal {
  import opened Common
  import opened Glass
  import opened PackValues
  import opened ThemeStore
  import opened ThemeLayout
  import opened ThemeParse

  // ---- parsed entries are valid ---------------------------------------------------------------

  ghost predicate ValidItem(bot: Bot, item: Item) {
    match item
    case TextItem(key, lang, value) => value.Some? ==> lang.Some? && ValidText(bot, key, lang.value, value.value)
    case ButtonItem(key, paint) =>
      paint.Some? ==> |key| <= 100 && bot.knownButton(key) && ValidPaint(paint.value)
    case LayoutItem(layout) => layout.Some? ==> CleanLayout(layout.value, bot.homeKeys)
  }

  ghost predicate ValidItems(bot: Bot, items: seq<Item>) {
    forall i :: 0 <= i < |items| ==> ValidItem(bot, items[i])
  }

  lemma {:induction false} ParsedLangsAreValid(bot: Bot, key: string, langs: Dict<Json>)
    ensures ValidItems(bot, ParsedLangs(bot, key, langs)) && |ParsedLangs(bot, key, langs)| == |langs|
  {
    if langs != [] {
      ParsedLangsAreValid(bot, key, langs[..|langs| - 1]);
    }
  }

  lemma {:induction false} ParsedTextsAreValid(bot: Bot, texts: Dict<Json>)
    ensures ValidItems(bot, ParsedTexts(bot, texts)) && |ParsedTexts(bot, texts)| == CountTexts(texts)
  {
    if texts != [] {
      var last := texts[|texts| - 1];
      ParsedTextsAreValid(bot, texts[..|texts| - 1]);
      if last.1.JDict? {
        ParsedLangsAreValid(bot, Take(last.0, 100), last.1.entries);
      }
    }
  }

  lemma RestyledIsValid(text: string, style: Option<string>)
    requires Legible(UnglassText(text)) && (style.Some? ==> style.value in PACK_STYLES)
    ensures ValidLabel(Restyled(text, style), style)
  {
  }

  lemma PaintIsValid(bot: Bot, fields: Dict<Json>)
    ensures PaintOf(bot, fields).Some? ==> ValidPaint(PaintOf(bot, fields).value)
  {
    var text, style := Get(fields, "text"), Get(fields, "style");
    if PaintOf(bot, fields).Some? && text.Some? {
      RestyledIsValid(PlainText(text.value).value, if style.Some? then StyleOf(style.value) else None);
    }
  }

  lemma {:induction false} ParsedButtonsAreValid(bot: Bot, buttons: Dict<Json>)
    ensures ValidItems(bot, ParsedButtons(bot, buttons)) && |ParsedButtons(bot, buttons)| == |buttons|
  {
    if buttons != [] {
      var last := buttons[|buttons| - 1];
      ParsedButtonsAreValid(bot, buttons[..|buttons| - 1]);
      if last.1.JDict? {
        PaintIsValid(bot, last.1.entries);
      }
    }
  }

  lemma LayoutItemsAreValid(bot: Bot, layout: Json)
    requires LayoutItems(layout, bot.homeKeys).Items?
    ensures ValidItems(bot, LayoutItems(layout, bot.homeKeys).items)
  {
    if layout.JDict? {
      ParsedLayoutIsClean(layout.entries, bot.homeKeys);
    }
  }

  lemma ParsedLayoutIsClean(layout: Dict<Json>, allowed: set<string>)
    ensures ParsedLayout(layout, allowed).Usable? ==> CleanLayout(ParsedLayout(layout, allowed).value, allowed)
  {
    if ParsedLayout(layout, allowed).Usable? {
      var rows := Get(layout, "rows").value.elements;
      KeptRowsAreFirsts(rows, allowed);
      MentionsAreAllowed(rows, allowed);
      HiddenIsSorted(HiddenOf(layout).elements, KeepRows(rows, allowed).placed);
    }
  }

  // ---- a clean pack is valid and no larger ----------------------------------------------------

  lemma {:induction false} GetIsStored<V>(d: Dict<V>, key: string)
    ensures Get(d, key).Some? ==> exists i :: 0 <= i < |d| && d[i] == (key, Get(d, key).value)
  {
    if d != [] && d[0].0 != key {
      GetIsStored(d[1..], key);
      if Get(d[1..], key).Some? {
        var i :| 0 <= i < |d[1..]| && d[1..][i] == (key, Get(d[1..], key).value);
        assert d[i + 1] == (key, Get(d, key).value);
      }
    }
  }

  lemma PutTextIsValid(bot: Bot, texts: Dict<Dict<string>>, key: string, lang: string, value: string)
    requires ValidTexts(bot, texts) && ValidText(bot, key, lang, value)
    ensures ValidTexts(bot, PutText(texts, key, lang, value))
  {
    var langs := LangsOf(texts, key);
    GetIsStored(texts, key);
    var more := SetItem(langs, lang, value);
    SetStaysUnique(langs, lang, value);
    assert ValidLangs(bot, key, more) by {
      forall i | 0 <= i < |more| ensures ValidText(bot, key, more[i].0, more[i].1) {
        assert more[i] == (lang, value) || more[i] in langs;
      }
      SetIsNotEmpty(langs, lang, value);
    }
    SetStaysUnique(texts, key, more);
    var all := SetItem(texts, key, more);
    forall i | 0 <= i < |all| ensures ValidLangs(bot, all[i].0, all[i].1) {
      assert all[i] == (key, more) || all[i] in texts;
    }
  }

  lemma SetIsNotEmpty<V>(d: Dict<V>, key: string, value: V)
    ensures SetItem(d, key, value) != []
  {
  }

  lemma CollectIsValid(bot: Bot, sofar: Clean, item: Item)
    requires ValidClean(bot, sofar) && ValidItem(bot, item)
    ensures ValidClean(bot, Collect(sofar, item))
  {
    match item
    case TextItem(key, Some(lang), Some(value)) => PutTextIsValid(bot, sofar.texts, key, lang, value);
    case ButtonItem(key, Some(paint)) =>
      var all := SetItem(sofar.buttons, key, paint);
      SetStaysUnique(sofar.buttons, key, paint);
      forall i | 0 <= i < |all|
        ensures |all[i].0| <= 100 && bot.knownButton(all[i].0) && ValidPaint(all[i].1)
      {
        assert all[i] == (key, paint) || all[i] in sofar.buttons;
      }
    case _ =>
  }

  lemma {:induction false} CollectedIsValid(bot: Bot, sofar: Clean, items: seq<Item>)
    requires ValidClean(bot, sofar) && ValidItems(bot, items)
    ensures ValidClean(bot, CollectInto(sofar, items))
  {
    if items != [] {
      CollectedIsValid(bot, sofar, items[..|items| - 1]);
      CollectIsValid(bot, CollectInto(sofar, items[..|items| - 1]), items[|items| - 1]);
    }
  }

  function LangCount(texts: Dict<Dict<string>>): nat {
    if texts == [] then 0 else LangCount(texts[..|texts| - 1]) + |texts[|texts| - 1].1|
  }

  function Size(c: Clean): nat {
    LangCount(c.texts) + |c.buttons|
  }

  lemma {:induction false} LangCountFront(first: (string, Dict<string>), rest: Dict<Dict<string>>)
    ensures LangCount([first] + rest) == |first.1| + LangCount(rest)
  {
    if rest == [] {
      assert [first] + rest == [first] && [first][..0] == [];
    } else {
      LangCountFront(first, rest[..|rest| - 1]);
      assert ([first] + rest)[..|[first] + rest| - 1] == [first] + rest[..|rest| - 1];
    }
  }

  lemma {:induction false} PutCount(texts: Dict<Dict<string>>, key: string, langs: Dict<string>)
    ensures LangCount(SetItem(texts, key, langs)) == LangCount(texts) - |LangsOf(texts, key)| + |langs|
  {
    if texts == [] {
      LangCountFront((key, langs), []);
      assert [(key, langs)] + [] == [(key, langs)];
    } else {
      assert texts == [texts[0]] + texts[1..];
      LangCountFront(texts[0], texts[1..]);
      if texts[0].0 == key {
        LangCountFront((key, langs), texts[1..]);
      } else {
        PutCount(texts[1..], key, langs);
        LangCountFront(texts[0], SetItem(texts[1..], key, langs));
      }
    }
  }

  lemma CollectAddsAtMostOne(bot: Bot, sofar: Clean, item: Item)
    requires ValidClean(bot, sofar)
    ensures Size(Collect(sofar, item)) <= Size(sofar) + (if item.LayoutItem? then 0 else 1)
  {
    match item
    case TextItem(key, Some(lang), Some(value)) =>
      var langs := LangsOf(sofar.texts, key);
      GetIsStored(sofar.texts, key);
      SetStaysUnique(langs, lang, value);
      PutCount(sofar.texts, key, SetItem(langs, lang, value));
    case ButtonItem(key, Some(paint)) => SetStaysUnique(sofar.buttons, key, paint);
    case _ =>
  }

  lemma {:induction false} CollectedIsNoLarger(bot: Bot, sofar: Clean, items: seq<Item>)
    requires ValidClean(bot, sofar) && ValidItems(bot, items)
    ensures Size(CollectInto(sofar, items)) <= Size(sofar) + |items|
  {
    if items != [] {
      CollectedIsNoLarger(bot, sofar, items[..|items| - 1]);
      CollectedIsValid(bot, sofar, items[..|items| - 1]);
      CollectAddsAtMostOne(bot, CollectInto(sofar, items[..|items| - 1]), items[|items| - 1]);
    }
  }

  lemma {:induction false} CollectConcat(sofar: Clean, a: seq<Item>, b: seq<Item>)
    ensures CollectInto(sofar, a + b) == CollectInto(CollectInto(sofar, a), b)
  {
    if b == [] {
      assert a + b == a;
    } else {
      CollectConcat(sofar, a, b[..|b| - 1]);
      assert (a + b)[..|a + b| - 1] == a + b[..|b| - 1];
    }
  }

  // ---- the texts of a clean pack come back ----------------------------------------------------

  function LangItems(key: string, langs: Dict<string>): seq<Item> {
    if langs == [] then []
    else
      var last := langs[|langs| - 1];
      LangItems(key, langs[..|langs| - 1]) + [TextItem(key, Some(last.0), Some(last.1))]
  }

  function TextItems(texts: Dict<Dict<string>>): seq<Item> {
    if texts == [] then []
    else TextItems(texts[..|texts| - 1]) + LangItems(texts[|texts| - 1].0, texts[|texts| - 1].1)
  }

  lemma SupportedLangIsClean(bot: Bot, lang: string)
    requires Sane(bot) && lang in SUPPORTED_LANGUAGES
    ensures Take(bot.lower(Glass.Strip(lang)), 10) == lang
  {
    assert Trimmed(lang);
  }

  lemma ValidLangParses(bot: Bot, key: string, lang: string, value: string)
    requires Sane(bot) && ValidText(bot, key, lang, value)
    ensures ParsedLang(bot, key, lang, JDict([("value", JStr(value))])) == TextItem(key, Some(lang), Some(value))
  {
    SupportedLangIsClean(bot, lang);
    assert ValueOf(JDict([("value", JStr(value))])) == Some(value);
  }

  lemma {:induction false} ValidLangsParse(bot: Bot, key: string, langs: Dict<string>)
    requires Sane(bot)
    requires forall i :: 0 <= i < |langs| ==> ValidText(bot, key, langs[i].0, langs[i].1)
    ensures ParsedLangs(bot, key, TextFields(langs)) == LangItems(key, langs)
    ensures |TextFields(langs)| == |langs|
  {
    if langs != [] {
      var n := |langs| - 1;
      ValidLangsParse(bot, key, langs[..n]);
      ValidLangParses(bot, key, langs[n].0, langs[n].1);
      assert TextFields(langs)[..|TextFields(langs)| - 1] == TextFields(langs[..n]);
    }
  }

  lemma {:induction false} ValidTextsParse(bot: Bot, texts: Dict<Dict<string>>)
    requires Sane(bot) && ValidTexts(bot, texts)
    ensures ParsedTexts(bot, TextsJson(texts)) == TextItems(texts)
    ensures CountTexts(TextsJson(texts)) == LangCount(texts)
  {
    if texts != [] {
      var n := |texts| - 1;
      var key, langs := texts[n].0, texts[n].1;
      ValidTextsParse(bot, texts[..n]);
      assert ValidLangs(bot, key, langs);
      ValidLangsParse(bot, key, langs);
      assert ValidText(bot, key, langs[0].0, langs[0].1);
      assert TextsJson(texts)[..|TextsJson(texts)| - 1] == TextsJson(texts[..n]);
    }
  }

  lemma NotAmongEarlier<V>(d: Dict<V>)
    requires UniqueKeys(d) && d != []
    ensures !HasKey(d[..|d| - 1], d[|d| - 1].0) && UniqueKeys(d[..|d| - 1])
  {
  }

  /** A further language of the key stored last. */
  lemma PutLast(texts: Dict<Dict<string>>, key: string, langs: Dict<string>, lang: string, value: string)
    requires !HasKey(texts, key) && !HasKey(langs, lang)
    ensures PutText(if langs == [] then texts else texts + [(key, langs)], key, lang, value)
         == texts + [(key, langs + [(lang, value)])]
  {
    SetNew(langs, lang, value);
    if langs == [] {
      GetMissing(texts, key);
      SetNew(texts, key, [(lang, value)]);
    } else {
      SetLast(texts, key, langs, langs + [(lang, value)]);
    }
  }

  lemma {:induction false} LangItemsCollect(sofar: Clean, key: string, langs: Dict<string>)
    requires !HasKey(sofar.texts, key) && UniqueKeys(langs)
    ensures CollectInto(sofar, LangItems(key, langs))
         == if langs == [] then sofar else sofar.(texts := sofar.texts + [(key, langs)])
  {
    if langs != [] {
      var init, last := langs[..|langs| - 1], langs[|langs| - 1];
      NotAmongEarlier(langs);
      LangItemsCollect(sofar, key, init);
      CollectConcat(sofar, LangItems(key, init), [TextItem(key, Some(last.0), Some(last.1))]);
      assert langs == init + [last];
      PutLast(sofar.texts, key, init, last.0, last.1);
    }
  }

  lemma NextTextCollects(texts: Dict<Dict<string>>, key: string, langs: Dict<string>)
    requires Collected(TextItems(texts)) == Clean(texts, [], None)
    requires !HasKey(texts, key) && UniqueKeys(langs) && langs != []
    ensures Collected(TextItems(texts + [(key, langs)])) == Clean(texts + [(key, langs)], [], None)
  {
    assert (texts + [(key, langs)])[..|texts|] == texts;
    CollectConcat(NOTHING, TextItems(texts), LangItems(key, langs));
    LangItemsCollect(Clean(texts, [], None), key, langs);
  }

  lemma ValidTextsInit(bot: Bot, texts: Dict<Dict<string>>)
    requires ValidTexts(bot, texts) && texts != []
    ensures ValidTexts(bot, texts[..|texts| - 1])
    ensures ValidLangs(bot, texts[|texts| - 1].0, texts[|texts| - 1].1)
    ensures !HasKey(texts[..|texts| - 1], texts[|texts| - 1].0)
  {
  }

  lemma {:induction false} TextItemsCollect(bot: Bot, texts: Dict<Dict<string>>)
    requires ValidTexts(bot, texts)
    ensures Collected(TextItems(texts)) == Clean(texts, [], None)
  {
    if texts != [] {
      var n := |texts| - 1;
      var init, key, langs := texts[..n], texts[n].0, texts[n].1;
      assert texts == init + [(key, langs)];
      ValidTextsInit(bot, texts);
      TextItemsCollect(bot, init);
      NextTextCollects(init, key, langs);
    }
  }

  // ---- a button comes back unless its plain label is bracketed --------------------------------

  /** No second pair of brackets is left for the next pass to take off. */
  predicate Stable(p: Paint) {
    p.text.Some? && p.style.Some? && p.style.value != GLASS_STYLE ==> !Bracketed(p.text.value)
  }

  function StringField(s: Option<string>): Option<Json> {
    if s.Some? then Some(JStr(s.value)) else None
  }

  function IconField(icon: Option<int>): Option<Json>
    requires icon.Some? ==> icon.value >= 0
  {
    if icon.Some? then Some(JStr(ShowNat(icon.value))) else None
  }

  lemma FieldsOfPaint(p: Paint)
    requires p.icon.Some? ==> p.icon.value >= 0
    ensures Get(PaintFields(p), "text") == StringField(p.text)
    ensures Get(PaintFields(p), "style") == StringField(p.style)
    ensures Get(PaintFields(p), "icon") == IconField(p.icon)
  {
    assert "text" != "style" && "style" != "icon" && "text" != "icon" by {
      assert |"text"| == 4 && |"style"| == 5 && |"icon"| == 4 && "text"[0] != "icon"[0];
    }
    var text := if p.text.Some? then [("text", JStr(p.text.value))] else [];
    var style := if p.style.Some? then [("style", JStr(p.style.value))] else [];
    var icon := if p.icon.Some? then [("icon", JStr(ShowNat(p.icon.value)))] else [];
    forall key: string ensures Get(text + style + icon, key) == FirstOf(Get(text, key), Get(style, key), Get(icon, key)) {
      GetConcat(text + style, icon, key);
      GetConcat(text, style, key);
    }
    assert PaintFields(p) == text + style + icon;
    assert Get(text, "style") == None && Get(text, "icon") == None;
    assert Get(style, "text") == None && Get(style, "icon") == None;
    assert Get(icon, "text") == None && Get(icon, "style") == None;
  }

  function FirstOf<V>(a: Option<V>, b: Option<V>, c: Option<V>): Option<V> {
    if a.Some? then a else if b.Some? then b else c
  }

  lemma {:induction false} GetConcat<V>(a: Dict<V>, b: Dict<V>, key: string)
    ensures Get(a + b, key) == if Get(a, key).Some? then Get(a, key) else Get(b, key)
  {
    if a == [] {
      assert a + b == b;
    } else {
      assert (a + b)[1..] == a[1..] + b;
      GetConcat(a[1..], b, key);
    }
  }

  lemma ValidIconParses(bot: Bot, icon: int)
    requires Sane(bot) && 0 <= icon < ICON_LIMIT
    ensures IconOf(bot, JStr(ShowNat(icon))) == Some(icon)
  {
    ReadUndoesShow(bot.digit, icon);
    assert Power10(19) == 1_0000_00000_00000_00000 by {
      assert Power10(5) == 100000;
      assert Power10(10) == 100000 * Power10(5);
      assert Power10(15) == 100000 * Power10(10);
      assert Power10(19) == 10000 * Power10(15);
    }
    ShowIsShort(icon, 19);
  }

  /** Restyling a valid label again keeps it exactly when nothing bracketed is left to unwrap. */
  lemma RestyledTwice(text: string, style: Option<string>)
    requires ValidLabel(text, style) && (style.Some? ==> style.value in PACK_STYLES)
    ensures (Legible(UnglassText(text)) && Restyled(text, style) == text)
      <==> (style.Some? && style.value != GLASS_STYLE ==> !Bracketed(text))
  {
  }

  lemma FieldsComeBack(bot: Bot, p: Paint)
    requires Sane(bot) && ValidPaint(p)
    ensures PaintFrom(bot, StringField(p.text), StringField(p.style), IconField(p.icon)) == Some(p) <==> Stable(p)
  {
    if p.icon.Some? {
      ValidIconParses(bot, p.icon.value);
    }
    if p.text.Some? {
      RestyledTwice(p.text.value, p.style);
    }
  }

  /** Writing a look out and parsing it gives the same look if and only if it is stable. */
  lemma PaintComesBack(bot: Bot, p: Paint)
    requires Sane(bot) && ValidPaint(p)
    ensures PaintOf(bot, PaintFields(p)) == Some(p) <==> Stable(p)
  {
    FieldsOfPaint(p);
    FieldsComeBack(bot, p);
  }

  // ---- the buttons of a clean pack ------------------------------------------------------------

  function ButtonItems(bot: Bot, buttons: Dict<Paint>): seq<Item> {
    if buttons == [] then []
    else
      var last := buttons[|buttons| - 1];
      ButtonItems(bot, buttons[..|buttons| - 1]) + [ButtonItem(last.0, PaintOf(bot, PaintFields(last.1)))]
  }

  lemma {:induction false} ValidButtonsParse(bot: Bot, buttons: Dict<Paint>)
    requires ValidButtons(bot, buttons)
    ensures ParsedButtons(bot, ButtonsJson(buttons)) == ButtonItems(bot, buttons)
    ensures |ButtonsJson(buttons)| == |buttons|
  {
    if buttons != [] {
      var n := |buttons| - 1;
      ValidButtonsParse(bot, buttons[..n]);
      assert ButtonsJson(buttons)[..|ButtonsJson(buttons)| - 1] == ButtonsJson(buttons[..n]);
    }
  }

  /** The buttons the second pass keeps. */
  function Survivors(bot: Bot, buttons: Dict<Paint>): Dict<Paint> {
    if buttons == [] then []
    else
      var last := buttons[|buttons| - 1];
      var rest := Survivors(bot, buttons[..|buttons| - 1]);
      var paint := PaintOf(bot, PaintFields(last.1));
      if paint.Some? then rest + [(last.0, paint.value)] else rest
  }

  lemma {:induction false} SurvivorsWereThere(bot: Bot, buttons: Dict<Paint>)
    ensures |Survivors(bot, buttons)| <= |buttons|
    ensures forall key :: HasKey(Survivors(bot, buttons), key) ==> HasKey(buttons, key)
  {
    if buttons != [] {
      var n := |buttons| - 1;
      SurvivorsWereThere(bot, buttons[..n]);
      forall key | HasKey(Survivors(bot, buttons), key) ensures HasKey(buttons, key) {
        if key == buttons[n].0 {
        } else {
          assert HasKey(Survivors(bot, buttons[..n]), key);
          var i :| 0 <= i < n && buttons[..n][i].0 == key;
          assert buttons[i].0 == key;
        }
      }
    }
  }

  lemma {:induction false} ButtonItemsCollect(bot: Bot, sofar: Clean, buttons: Dict<Paint>)
    requires UniqueKeys(buttons) && sofar.buttons == []
    ensures CollectInto(sofar, ButtonItems(bot, buttons)) == sofar.(buttons := Survivors(bot, buttons))
  {
    if buttons != [] {
      var n := |buttons| - 1;
      NotAmongEarlier(buttons);
      ButtonItemsCollect(bot, sofar, buttons[..n]);
      SurvivorsWereThere(bot, buttons[..n]);
      var paint := PaintOf(bot, PaintFields(buttons[n].1));
      CollectConcat(sofar, ButtonItems(bot, buttons[..n]), [ButtonItem(buttons[n].0, paint)]);
      if paint.Some? {
        SetNew(Survivors(bot, buttons[..n]), buttons[n].0, paint.value);
      }
    }
  }

  predicate AllStable(buttons: Dict<Paint>) {
    forall i :: 0 <= i < |buttons| ==> Stable(buttons[i].1)
  }

  lemma AppendedEqual<T>(a: seq<T>, x: T, b: seq<T>, y: T)
    ensures a + [x] == b + [y] <==> a == b && x == y
  {
    if a + [x] == b + [y] {
      assert (a + [x])[..|a|] == a && (b + [y])[..|b|] == b;
      assert (a + [x])[|a|] == x && (b + [y])[|b|] == y;
    }
  }

  lemma SurvivorsAppend(bot: Bot, buttons: Dict<Paint>, key: string, p: Paint)
    ensures Survivors(bot, buttons + [(key, p)]) == buttons + [(key, p)]
      <==> Survivors(bot, buttons) == buttons && PaintOf(bot, PaintFields(p)) == Some(p)
  {
    var all := buttons + [(key, p)];
    assert all[..|all| - 1] == buttons;
    SurvivorsWereThere(bot, buttons);
    var paint := PaintOf(bot, PaintFields(p));
    if paint.Some? {
      AppendedEqual(Survivors(bot, buttons), (key, paint.value), buttons, (key, p));
    } else {
      assert |Survivors(bot, all)| < |all|;
    }
  }

  lemma ValidButtonsInit(bot: Bot, buttons: Dict<Paint>)
    requires ValidButtons(bot, buttons) && buttons != []
    ensures ValidButtons(bot, buttons[..|buttons| - 1]) && ValidPaint(buttons[|buttons| - 1].1)
  {
  }

  lemma AllStableAppend(buttons: Dict<Paint>, key: string, p: Paint)
    ensures AllStable(buttons + [(key, p)]) <==> AllStable(buttons) && Stable(p)
  {
    var all := buttons + [(key, p)];
    assert all[|buttons|].1 == p;
    assert forall i :: 0 <= i < |buttons| ==> all[i] == buttons[i];
  }

  lemma {:induction false} AllSurviveIffStable(bot: Bot, buttons: Dict<Paint>)
    requires Sane(bot) && ValidButtons(bot, buttons)
    ensures Survivors(bot, buttons) == buttons <==> AllStable(buttons)
  {
    if buttons != [] {
      var n := |buttons| - 1;
      var init, key, p := buttons[..n], buttons[n].0, buttons[n].1;
      assert buttons == init + [(key, p)];
      ValidButtonsInit(bot, buttons);
      AllSurviveIffStable(bot, init);
      PaintComesBack(bot, p);
      SurvivorsAppend(bot, init, key, p);
      AllStableAppend(init, key, p);
    }
  }

  // ---- the same condition on the raw buttons ---------------------------------------------------

  predicate IsValidAt(bot: Bot, buttons: Dict<Json>, i: nat)
    requires i < |buttons|
  {
    ParsedButton(bot, buttons[i].0, buttons[i].1).paint.Some?
  }

  /** A valid entry no later valid entry replaces. */
  predicate IsLastValid(bot: Bot, buttons: Dict<Json>, i: nat) {
    && i < |buttons| && IsValidAt(bot, buttons, i)
    && forall j :: i < j < |buttons| && IsValidAt(bot, buttons, j) ==> Take(buttons[j].0, 100) != Take(buttons[i].0, 100)
  }

  /** Two pairs of brackets around a label with a plain style. */
  predicate IsNested(entry: Json) {
    && entry.JDict?
    && var text, style := Get(entry.entries, "text"), Get(entry.entries, "style");
       && text.Some? && text.value.JStr? && Bracketed(UnglassText(text.value.text))
       && style.Some? && style.value != JStr(GLASS_STYLE)
  }

  predicate NothingNested(bot: Bot, buttons: Dict<Json>) {
    forall i: nat :: i < |buttons| && IsLastValid(bot, buttons, i) ==> !IsNested(buttons[i].1)
  }

  lemma NestedIffUnstable(bot: Bot, rawKey: string, entry: Json)
    requires ParsedButton(bot, rawKey, entry).paint.Some?
    ensures IsNested(entry) <==> !Stable(ParsedButton(bot, rawKey, entry).paint.value)
  {
  }

  /** `p` is what the last valid entry for `key` asks for. */
  ghost predicate IsLastPaint(bot: Bot, buttons: Dict<Json>, key: string, p: Paint) {
    exists i: nat :: PaintsAt(bot, buttons, i, key, p)
  }

  predicate PaintsAt(bot: Bot, buttons: Dict<Json>, i: nat, key: string, p: Paint) {
    IsLastValid(bot, buttons, i) && ParsedButton(bot, buttons[i].0, buttons[i].1) == ButtonItem(key, Some(p))
  }

  /** The last entry replaces an earlier one for its key. */
  predicate Replaces(bot: Bot, buttons: Dict<Json>, key: string)
    requires buttons != []
  {
    var n := |buttons| - 1;
    IsValidAt(bot, buttons, n) && Take(buttons[n].0, 100) == key
  }

  lemma LastValidAppend(bot: Bot, buttons: Dict<Json>, i: nat)
    requires i < |buttons| - 1
    ensures IsLastValid(bot, buttons, i) <==>
      (IsLastValid(bot, buttons[..|buttons| - 1], i) && !Replaces(bot, buttons, Take(buttons[i].0, 100)))
  {
    var n := |buttons| - 1;
    var init := buttons[..n];
    assert init[i] == buttons[i];
    assert forall j :: i < j < n ==> init[j] == buttons[j];
  }

  lemma ReplacedPaint(bot: Bot, buttons: Dict<Json>, key: string, p: Paint)
    requires buttons != [] && Replaces(bot, buttons, key)
    ensures var last := buttons[|buttons| - 1];
      IsLastPaint(bot, buttons, key, p) <==> ParsedButton(bot, last.0, last.1) == ButtonItem(key, Some(p))
  {
    var n := |buttons| - 1;
    var last := ParsedButton(bot, buttons[n].0, buttons[n].1);
    assert PaintsAt(bot, buttons, n, key, last.paint.value);
    forall i: nat | i < n && Take(buttons[i].0, 100) == key ensures !IsLastValid(bot, buttons, i) {
      LastValidAppend(bot, buttons, i);
    }
  }

  lemma PaintsAtEarlier(bot: Bot, buttons: Dict<Json>, i: nat, key: string, p: Paint)
    requires i < |buttons| - 1 && !Replaces(bot, buttons, key)
    ensures PaintsAt(bot, buttons, i, key, p) <==> PaintsAt(bot, buttons[..|buttons| - 1], i, key, p)
  {
    assert buttons[..|buttons| - 1][i] == buttons[i];
    if Take(buttons[i].0, 100) == key {
      LastValidAppend(bot, buttons, i);
    }
  }

  lemma EarlierPaint(bot: Bot, buttons: Dict<Json>, key: string, p: Paint)
    requires buttons != [] && !Replaces(bot, buttons, key)
    ensures IsLastPaint(bot, buttons, key, p) <==> IsLastPaint(bot, buttons[..|buttons| - 1], key, p)
  {
    var init := buttons[..|buttons| - 1];
    if IsLastPaint(bot, buttons, key, p) {
      var i: nat :| PaintsAt(bot, buttons, i, key, p);
      PaintsAtEarlier(bot, buttons, i, key, p);
    }
    if IsLastPaint(bot, init, key, p) {
      var i: nat :| PaintsAt(bot, init, i, key, p);
      PaintsAtEarlier(bot, buttons, i, key, p);
    }
  }

  /** The collected buttons are exactly the last valid entries. */
  lemma {:induction false} CollectedAreLastValid(bot: Bot, sofar: Clean, buttons: Dict<Json>)
    requires sofar.buttons == []
    ensures var c := CollectInto(sofar, ParsedButtons(bot, buttons));
      && UniqueKeys(c.buttons)
      && forall key, p :: (key, p) in c.buttons <==> IsLastPaint(bot, buttons, key, p)
  {
    if buttons != [] {
      var n := |buttons| - 1;
      var item := ParsedButton(bot, buttons[n].0, buttons[n].1);
      var before := CollectInto(sofar, ParsedButtons(bot, buttons[..n]));
      CollectedAreLastValid(bot, sofar, buttons[..n]);
      CollectConcat(sofar, ParsedButtons(bot, buttons[..n]), [item]);
      var c := CollectInto(sofar, ParsedButtons(bot, buttons));
      assert c == Collect(before, item) by { assert [item][..0] == []; }
      forall key, p ensures (key, p) in c.buttons <==> IsLastPaint(bot, buttons, key, p) {
        if Replaces(bot, buttons, key) {
          ReplacedPaint(bot, buttons, key, p);
        } else {
          EarlierPaint(bot, buttons, key, p);
        }
        if item.paint.Some? {
          SetMembers(before.buttons, item.key, item.paint.value, (key, p));
        }
      }
      if item.paint.Some? {
        SetStaysUnique(before.buttons, item.key, item.paint.value);
      }
    }
  }

  lemma {:induction false} TextsLeaveButtons(bot: Bot, sofar: Clean, texts: Dict<Json>)
    ensures CollectInto(sofar, ParsedTexts(bot, texts)).buttons == sofar.buttons
  {
    if texts != [] {
      var last := texts[|texts| - 1];
      TextsLeaveButtons(bot, sofar, texts[..|texts| - 1]);
      var before := CollectInto(sofar, ParsedTexts(bot, texts[..|texts| - 1]));
      CollectConcat(sofar, ParsedTexts(bot, texts[..|texts| - 1]), ParsedKey(bot, last.0, last.1));
      KeyLeavesButtons(bot, before, last.0, last.1);
    }
  }

  lemma KeyLeavesButtons(bot: Bot, sofar: Clean, rawKey: string, langs: Json)
    ensures CollectInto(sofar, ParsedKey(bot, rawKey, langs)).buttons == sofar.buttons
  {
    if langs.JDict? {
      LangsLeaveButtons(bot, sofar, Take(rawKey, 100), langs.entries);
    } else {
      var item := TextItem(Take(rawKey, 100), None, None);
      assert [item][..0] == [];
    }
  }

  lemma {:induction false} LangsLeaveButtons(bot: Bot, sofar: Clean, key: string, langs: Dict<Json>)
    ensures CollectInto(sofar, ParsedLangs(bot, key, langs)).buttons == sofar.buttons
  {
    if langs != [] {
      LangsLeaveButtons(bot, sofar, key, langs[..|langs| - 1]);
    }
  }

  lemma StableIffNothingNested(bot: Bot, sofar: Clean, buttons: Dict<Json>)
    requires sofar.buttons == []
    ensures AllStable(CollectInto(sofar, ParsedButtons(bot, buttons)).buttons) <==> NothingNested(bot, buttons)
  {
    var all := CollectInto(sofar, ParsedButtons(bot, buttons)).buttons;
    CollectedAreLastValid(bot, sofar, buttons);
    if AllStable(all) {
      forall i: nat | i < |buttons| && IsLastValid(bot, buttons, i) ensures !IsNested(buttons[i].1) {
        var item := ParsedButton(bot, buttons[i].0, buttons[i].1);
        NestedIffUnstable(bot, buttons[i].0, buttons[i].1);
        assert PaintsAt(bot, buttons, i, item.key, item.paint.value);
        assert (item.key, item.paint.value) in all;
      }
    }
    if NothingNested(bot, buttons) {
      forall k | 0 <= k < |all| ensures Stable(all[k].1) {
        assert (all[k].0, all[k].1) in all;
        assert IsLastPaint(bot, buttons, all[k].0, all[k].1);
        var i: nat :| PaintsAt(bot, buttons, i, all[k].0, all[k].1);
        NestedIffUnstable(bot, buttons[i].0, buttons[i].1);
      }
    }
  }

  // ---- main results ----------------------------------------------------------------------------

  lemma SectionNamesDiffer()
    ensures NoRepeat(["format", "version", "name", "source", "texts", "buttons", "layout"])
  {
  }

  lemma PackKeys(c: Clean, name: Json, source: Json)
    ensures var d := PackJson(c, name, source).entries;
      UniqueKeys(d) && (c.layout.None? ==> !HasKey(d, "layout"))
  {
    var d := PackJson(c, name, source).entries;
    var names := ["format", "version", "name", "source", "texts", "buttons", "layout"];
    SectionNamesDiffer();
    assert forall i :: 0 <= i < |d| ==> d[i].0 == names[i];
    assert names[6] == "layout";
  }

  lemma PackHead(c: Clean, name: Json, source: Json)
    ensures var d := PackJson(c, name, source).entries;
      Get(d, "format") == Some(JStr(PACK_FORMAT)) && VersionOf(d) == Some(PACK_VERSION)
  {
    var d := PackJson(c, name, source).entries;
    PackKeys(c, name, source);
    GetAt(d, 0);
    GetAt(d, 1);
  }

  lemma PackBody(c: Clean, name: Json, source: Json)
    ensures var d := PackJson(c, name, source).entries;
      && SectionOf(d, "texts") == JDict(TextsJson(c.texts))
      && SectionOf(d, "buttons") == JDict(ButtonsJson(c.buttons))
  {
    var d := PackJson(c, name, source).entries;
    PackKeys(c, name, source);
    GetAt(d, 4);
    GetAt(d, 5);
  }

  lemma PackLayout(c: Clean, name: Json, source: Json)
    ensures LayoutSection(PackJson(c, name, source).entries)
         == if c.layout.Some? then JDict(LayoutJson(c.layout.value)) else JNull
  {
    var d := PackJson(c, name, source).entries;
    PackKeys(c, name, source);
    if c.layout.Some? {
      GetAt(d, 6);
    } else {
      GetMissing(d, "layout");
    }
  }

  lemma PackSections(c: Clean, name: Json, source: Json)
    ensures var d := PackJson(c, name, source).entries;
      && Get(d, "format") == Some(JStr(PACK_FORMAT))
      && VersionOf(d) == Some(PACK_VERSION)
      && SectionOf(d, "texts") == JDict(TextsJson(c.texts))
      && SectionOf(d, "buttons") == JDict(ButtonsJson(c.buttons))
      && LayoutSection(d) == (if c.layout.Some? then JDict(LayoutJson(c.layout.value)) else JNull)
  {
    PackHead(c, name, source);
    PackBody(c, name, source);
    PackLayout(c, name, source);
  }

  /** parse_pack promises a usable pack only if every entry of it was checked. */
  lemma ParsedPackIsValid(bot: Bot, raw: Json)
    requires ParsedPack(bot, raw).Items?
    ensures ValidItems(bot, ParsedPack(bot, raw).items)
    ensures ValidClean(bot, Collected(ParsedPack(bot, raw).items))
    ensures Size(Collected(ParsedPack(bot, raw).items)) <= MAX_ENTRIES
  {
    var d := raw.entries;
    var texts, buttons := SectionOf(d, "texts").entries, SectionOf(d, "buttons").entries;
    var placed := LayoutItems(LayoutSection(d), bot.homeKeys).items;
    var entries := ParsedTexts(bot, texts) + ParsedButtons(bot, buttons);
    ParsedTextsAreValid(bot, texts);
    ParsedButtonsAreValid(bot, buttons);
    LayoutItemsAreValid(bot, LayoutSection(d));
    CollectedIsValid(bot, NOTHING, entries);
    CollectedIsNoLarger(bot, NOTHING, entries);
    CollectConcat(NOTHING, entries, placed);
    LayoutAddsNothing(bot, Collected(entries), LayoutSection(d));
    CollectedIsValid(bot, NOTHING, entries + placed);
  }

  lemma LayoutAddsNothing(bot: Bot, sofar: Clean, layout: Json)
    requires LayoutItems(layout, bot.homeKeys).Items?
    ensures Size(CollectInto(sofar, LayoutItems(layout, bot.homeKeys).items)) == Size(sofar)
  {
  }

  function LayoutEntry(layout: Option<Layout>): seq<Item> {
    if layout.Some? then [LayoutItem(layout)] else []
  }

  lemma AcceptedPackIsItsSections(bot: Bot, raw: Json, texts: Dict<Json>, buttons: Dict<Json>, layout: Json)
    requires raw.JDict? && Get(raw.entries, "format") == Some(JStr(PACK_FORMAT))
    requires VersionOf(raw.entries) == Some(PACK_VERSION) && bot.size(raw) <= MAX_PACK_BYTES
    requires SectionOf(raw.entries, "texts") == JDict(texts) && SectionOf(raw.entries, "buttons") == JDict(buttons)
    requires LayoutSection(raw.entries) == layout && (layout.JNull? || layout.JDict?)
    ensures ParsedPack(bot, raw) == ParsedSections(bot, raw.entries, texts, buttons, layout)
  {
  }

  /** The entries the second pass finds in a clean pack. */
  lemma CleanPackParses(bot: Bot, c: Clean, name: Json, source: Json)
    requires Sane(bot) && ValidClean(bot, c) && c != NOTHING && Size(c) <= MAX_ENTRIES
    requires bot.size(PackJson(c, name, source)) <= MAX_PACK_BYTES
    ensures ParsedPack(bot, PackJson(c, name, source))
         == Items(TextItems(c.texts) + ButtonItems(bot, c.buttons) + LayoutEntry(c.layout))
  {
    var raw := PackJson(c, name, source);
    var layout := if c.layout.Some? then JDict(LayoutJson(c.layout.value)) else JNull;
    PackSections(c, name, source);
    AcceptedPackIsItsSections(bot, raw, TextsJson(c.texts), ButtonsJson(c.buttons), layout);
    CleanLayoutSection(bot, c.layout);
    SectionsParse(bot, raw.entries, c, layout);
  }

  lemma CleanLayoutSection(bot: Bot, layout: Option<Layout>)
    requires layout.Some? ==> CleanLayout(layout.value, bot.homeKeys)
    ensures LayoutItems(if layout.Some? then JDict(LayoutJson(layout.value)) else JNull, bot.homeKeys)
         == Items(LayoutEntry(layout))
  {
    if layout.Some? {
      CleanLayoutParsesToItself(layout.value, bot.homeKeys);
    }
  }

  lemma SectionsParse(bot: Bot, raw: Dict<Json>, c: Clean, layout: Json)
    requires Sane(bot) && ValidClean(bot, c) && c != NOTHING && Size(c) <= MAX_ENTRIES
    requires LayoutItems(layout, bot.homeKeys) == Items(LayoutEntry(c.layout))
    ensures ParsedSections(bot, raw, TextsJson(c.texts), ButtonsJson(c.buttons), layout)
         == Items(TextItems(c.texts) + ButtonItems(bot, c.buttons) + LayoutEntry(c.layout))
  {
    ValidTextsParse(bot, c.texts);
    ValidButtonsParse(bot, c.buttons);
    SomethingToParse(bot, c);
  }

  /** Collecting those entries gives the clean pack back, but for the buttons the pass drops or alters. */
  lemma CleanPackCollects(bot: Bot, c: Clean)
    requires ValidClean(bot, c)
    ensures Collected(TextItems(c.texts) + ButtonItems(bot, c.buttons) + LayoutEntry(c.layout))
         == c.(buttons := Survivors(bot, c.buttons))
  {
    CollectConcat(NOTHING, TextItems(c.texts) + ButtonItems(bot, c.buttons), LayoutEntry(c.layout));
    CollectConcat(NOTHING, TextItems(c.texts), ButtonItems(bot, c.buttons));
    TextItemsCollect(bot, c.texts);
    ButtonItemsCollect(bot, Clean(c.texts, [], None), c.buttons);
    if c.layout.Some? {
      assert LayoutEntry(c.layout)[..0] == [];
    }
  }

  lemma SomethingToParse(bot: Bot, c: Clean)
    requires ValidClean(bot, c) && c != NOTHING
    ensures c.layout.Some? || TextItems(c.texts) + ButtonItems(bot, c.buttons) != []
  {
  }

  /**
   * Normalising a pack twice. For every raw pack with at least one valid entry, the clean pack parses
   * again, and comes out the same if and only if no label was left bracketed under a plain style.
   */
  lemma NormalisingAgainChangesNothingIff(bot: Bot, raw: Json, name: Json, source: Json)
    requires Sane(bot) && ParsedPack(bot, raw).Items?
    requires Collected(ParsedPack(bot, raw).items) != NOTHING
    requires bot.size(PackJson(Collected(ParsedPack(bot, raw).items), name, source)) <= MAX_PACK_BYTES
    ensures var c := Collected(ParsedPack(bot, raw).items);
      var again := ParsedPack(bot, PackJson(c, name, source));
      && again.Items?
      && Collected(again.items).texts == c.texts
      && Collected(again.items).layout == c.layout
      && (Collected(again.items) == c <==> AllStable(c.buttons))
  {
    var c := Collected(ParsedPack(bot, raw).items);
    ParsedPackIsValid(bot, raw);
    CleanPackParses(bot, c, name, source);
    CleanPackCollects(bot, c);
    AllSurviveIffStable(bot, c.buttons);
  }

  lemma ParsedButtonsAreStableIff(bot: Bot, raw: Json)
    requires ParsedPack(bot, raw).Items?
    ensures AllStable(Collected(ParsedPack(bot, raw).items).buttons)
      <==> NothingNested(bot, SectionOf(raw.entries, "buttons").entries)
  {
    var d := raw.entries;
    var texts, buttons := SectionOf(d, "texts").entries, SectionOf(d, "buttons").entries;
    var placed := LayoutItems(LayoutSection(d), bot.homeKeys).items;
    CollectConcat(NOTHING, ParsedTexts(bot, texts) + ParsedButtons(bot, buttons), placed);
    CollectConcat(NOTHING, ParsedTexts(bot, texts), ParsedButtons(bot, buttons));
    TextsLeaveButtons(bot, NOTHING, texts);
    StableIffNothingNested(bot, CollectInto(NOTHING, ParsedTexts(bot, texts)), buttons);
    LayoutLeavesButtons(CollectInto(NOTHING, ParsedTexts(bot, texts) + ParsedButtons(bot, buttons)), bot, LayoutSection(d));
  }

  lemma LayoutLeavesButtons(sofar: Clean, bot: Bot, layout: Json)
    requires LayoutItems(layout, bot.homeKeys).Items?
    ensures CollectInto(sofar, LayoutItems(layout, bot.homeKeys).items).buttons == sofar.buttons
  {
    var placed := LayoutItems(layout, bot.homeKeys).items;
    assert |placed| <= 1;
    assert placed != [] ==> placed[..0] == [];
  }

  /** The same, read off the raw pack: nothing changes if and only if no button's last valid entry puts a
      plain style on a label in two pairs of brackets. */
  lemma NormalisingRawAgainChangesNothingIff(bot: Bot, raw: Json, name: Json, source: Json)
    requires Sane(bot) && ParsedPack(bot, raw).Items?
    requires Collected(ParsedPack(bot, raw).items) != NOTHING
    requires bot.size(PackJson(Collected(ParsedPack(bot, raw).items), name, source)) <= MAX_PACK_BYTES
    ensures var c := Collected(ParsedPack(bot, raw).items);
      var again := ParsedPack(bot, PackJson(c, name, source));
      again.Items? && (Collected(again.items) == c <==> NothingNested(bot, SectionOf(raw.entries, "buttons").entries))
  {
    NormalisingAgainChangesNothingIff(bot, raw, name, source);
    ParsedButtonsAreStableIff(bot, raw);
  }

  /** The pack gets as far as its layout. */
  predicate ReachesLayout(bot: Bot, raw: Json) {
    && raw.JDict? && Get(raw.entries, "format") == Some(JStr(PACK_FORMAT))
    && VersionOf(raw.entries) == Some(PACK_VERSION) && bot.size(raw) <= MAX_PACK_BYTES
    && SectionOf(raw.entries, "texts").JDict? && SectionOf(raw.entries, "buttons").JDict?
    && LayoutSection(raw.entries).JDict?
    && CountTexts(SectionOf(raw.entries, "texts").entries) + |SectionOf(raw.entries, "buttons").entries| <= MAX_ENTRIES
  }

  /** The exact condition under which parsing a pack raises TypeError instead of PackError. */
  lemma PackRaisesTypeErrorIff(bot: Bot, raw: Json)
    ensures ParsedPack(bot, raw) == RaisedTypeError
      <==> ReachesLayout(bot, raw) && MeetsUnhashable(LayoutSection(raw.entries).entries, bot.homeKeys)
  {
    if raw.JDict? && LayoutSection(raw.entries).JDict? {
      TypeErrorIffUnhashableHidden(LayoutSection(raw.entries).entries, bot.homeKeys);
    }
  }

  /** Two pairs of brackets come off in two passes. */
  lemma NestedBracketsChangeTwice(bot: Bot)
    ensures var a := [GLASS_LEFT, 'a', GLASS_RIGHT];
      var fields := [("text", JStr([GLASS_LEFT] + a + [GLASS_RIGHT])), ("style", JStr("primary"))];
      && PaintOf(bot, fields) == Some(Paint(Some(a), Some("primary"), None))
      && PaintOf(bot, PaintFields(Paint(Some(a), Some("primary"), None))) == Some(Paint(Some("a"), Some("primary"), None))
  {
    var a := [GLASS_LEFT, 'a', GLASS_RIGHT];
    var twice := [GLASS_LEFT] + a + [GLASS_RIGHT];
    assert twice[1..|twice| - 1] == a && a[1..|a| - 1] == "a";
    assert Trimmed(a) && Trimmed("a") && Trimmed(twice);
    assert UnglassText(twice) == a && UnglassText(a) == "a";
    assert "primary" != GLASS_STYLE by { assert |"primary"| == 7 && |GLASS_STYLE| == 5; }
    var first, second := Paint(Some(twice), Some("primary"), None), Paint(Some(a), Some("primary"), None);
    assert PaintFields(first) == [("text", JStr(twice)), ("style", JStr("primary"))];
    FieldsOfPaint(first);
    FieldsOfPaint(second);
  }
}
