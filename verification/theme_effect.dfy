// What an apply leaves in the tables: for every text, every look and every place on the home menu, the
// value stored afterwards, told from the chosen entries alone.
module ThemeEffects {
  import opened Common
  import opened Glass
  import opened ThemeStore

  // ---- texts -----------------------------------------------------------------------------------

  lemma {:induction false} EditTextsConcat(t: Texts, a: seq<TextEdit>, b: seq<TextEdit>)
    ensures EditTexts(t, a + b) == EditTexts(EditTexts(t, a), b)
  {
    if b == [] {
      assert a + b == a;
    } else {
      EditTextsConcat(t, a, b[..|b| - 1]);
      assert (a + b)[..|a + b| - 1] == a + b[..|b| - 1];
    }
  }

  /** Replace mode leaves a stored text alone: the pack mentions it, or it is private. */
  predicate Spared(items: seq<Item>, slot: Slot) {
    MentionsText(items, slot) || IsPrivate(slot.key)
  }

  /** Spared are the texts under a private key, and those the pack has an entry for, valid or not. */
  lemma SparedMeans(items: seq<Item>, slot: Slot)
    ensures Spared(items, slot) <==>
      || "panel_locations_" <= slot.key
      || exists x :: x in items && x.TextItem? && x.key == slot.key && x.lang == Some(slot.lang)
  {
    if x :| x in items && x.TextItem? && x.key == slot.key && x.lang == Some(slot.lang) {
      var i :| 0 <= i < |items| && items[i] == x;
      assert MentionsText(items, slot);
    }
  }

  lemma MentionsButtonMeans(items: seq<Item>, key: string)
    ensures MentionsButton(items, key) <==> exists x :: x in items && x.ButtonItem? && x.key == key
  {
    if x :| x in items && x.ButtonItem? && x.key == key {
      var i :| 0 <= i < |items| && items[i] == x;
      assert MentionsButton(items, key);
    }
  }

  lemma {:induction false} TextAfterDrops(t: Texts, order: seq<Slot>, items: seq<Item>, slot: Slot)
    ensures Lookup(EditTexts(t, Drops(order, items)), slot)
         == if slot in order && !Spared(items, slot) then None else Lookup(t, slot)
  {
    if order != [] {
      var n := |order| - 1;
      TextAfterDrops(t, order[..n], items, slot);
      assert order == order[..n] + [order[n]];
    }
  }

  ghost predicate AllWrites(edits: seq<TextEdit>) {
    forall i :: 0 <= i < |edits| ==> edits[i].Write?
  }

  lemma {:induction false} WritesOnlyWrite(chosen: seq<Item>)
    ensures AllWrites(Writes(chosen))
  {
    if chosen != [] {
      WritesOnlyWrite(chosen[..|chosen| - 1]);
    }
  }

  /** The value the last edit of `slot` writes. */
  function LastValue(edits: seq<TextEdit>, slot: Slot): Option<string> {
    if edits == [] then None
    else
      var last := edits[|edits| - 1];
      if last.Write? && last.slot == slot then Some(last.value) else LastValue(edits[..|edits| - 1], slot)
  }

  /** A stored text keeps its banner, a new one has none. */
  function Rewritten(was: Option<Text>, value: string): Text {
    if was.Some? then was.value.(value := value) else Text(value, None, None)
  }

  lemma {:induction false} TextAfterWrites(t: Texts, writes: seq<TextEdit>, slot: Slot)
    requires AllWrites(writes)
    ensures var v := LastValue(writes, slot);
      Lookup(EditTexts(t, writes), slot) == if v.Some? then Some(Rewritten(Lookup(t, slot), v.value)) else Lookup(t, slot)
  {
    if writes != [] {
      TextAfterWrites(t, writes[..|writes| - 1], slot);
    }
  }

  lemma {:induction false} WrittenIsEdited(edits: seq<TextEdit>, slot: Slot)
    requires LastValue(edits, slot).Some?
    ensures TextEdits(edits, slot) > 0
  {
    if edits[|edits| - 1].slot != slot {
      WrittenIsEdited(edits[..|edits| - 1], slot);
    }
  }

  /**
   * The text stored in a slot after an apply: what the last chosen entry for it says, and without one,
   * nothing if a replace did not spare it and the old text otherwise.
   */
  lemma TextAfterApply(s: Store, items: seq<Item>, chosen: seq<Item>, replace: bool, defaults: map<string, string>,
                       textOrder: seq<Slot>, buttonOrder: seq<string>, slot: Slot)
    requires PickedFrom(chosen, items) && (slot in s.texts ==> slot in textOrder)
    ensures var p := PlanOf(s, items, chosen, replace, defaults, textOrder, buttonOrder);
      var v := LastValue(Writes(chosen), slot);
      Lookup(Applied(s, p).texts, slot) == (
        if v.Some? then Some(Rewritten(Lookup(s.texts, slot), v.value))
        else if replace && !Spared(items, slot) then None
        else Lookup(s.texts, slot))
  {
    var p := PlanOf(s, items, chosen, replace, defaults, textOrder, buttonOrder);
    EditTextsConcat(s.texts, p.drops, p.writes);
    if replace {
      TextAfterDrops(s.texts, textOrder, items, slot);
    }
    WritesOnlyWrite(chosen);
    TextAfterWrites(EditTexts(s.texts, p.drops), p.writes, slot);
    if LastValue(p.writes, slot).Some? {
      WrittenIsEdited(p.writes, slot);
      WritesAreMentioned(chosen, items, slot);
    }
  }

  // ---- looks -----------------------------------------------------------------------------------

  lemma {:induction false} EditLooksConcat(b: Bench, x: seq<LookEdit>, y: seq<LookEdit>)
    ensures EditLooks(b, x + y) == EditLooks(EditLooks(b, x), y)
  {
    if y == [] {
      assert x + y == x;
    } else {
      EditLooksConcat(b, x, y[..|y| - 1]);
      assert (x + y)[..|x + y| - 1] == x + y[..|y| - 1];
    }
  }

  /** A button row when an apply in either mode starts to dress it: blank, reset, or as stored. */
  function Undressed(buttons: Buttons, key: string, replace: bool, items: seq<Item>, defaults: map<string, string>)
    : Button
  {
    if key !in buttons then NEW_BUTTON
    else if replace && !MentionsButton(items, key) && Customized(key, buttons[key].look, defaults) then
      buttons[key].(look := NO_LOOK)
    else buttons[key]
  }

  /** The row an edit of `key` works on. */
  function RowOf(buttons: Buttons, key: string): Button {
    if key in buttons then buttons[key] else NEW_BUTTON
  }

  lemma OneLookEdit(b: Bench, edits: seq<LookEdit>, e: LookEdit, key: string)
    ensures var was, now := EditLooks(b, edits).buttons, EditLooks(b, edits + [e]).buttons;
      && (key in now <==> key in was || key == e.key)
      && now.Keys == was.Keys + {e.key}
      && (key == e.key ==> now[key] == RowOf(was, key).(look := EditedLook(RowOf(was, key).look, e)))
      && (key in was && key != e.key ==> now[key] == was[key])
  {
    assert (edits + [e])[..|edits|] == edits;
    assert EditLooks(b, edits + [e]) == EditLook(EditLooks(b, edits), e);
  }

  /** The stored rows, the ones of `keys` that replace mode resets with their built-in look. */
  ghost predicate AfterResets(now: Buttons, buttons: Buttons, keys: seq<string>, items: seq<Item>,
                              defaults: map<string, string>, key: string)
  {
    && now.Keys == buttons.Keys
    && (key in buttons ==> now[key] == Undressed(buttons, key, key in keys, items, defaults))
  }

  lemma {:induction false} ButtonAfterResets(buttons: Buttons, order: seq<string>, items: seq<Item>,
                                             defaults: map<string, string>, key: string)
    ensures AfterResets(EditLooks(Begin(buttons), Resets(order, items, buttons, defaults)).buttons, buttons, order,
                        items, defaults, key)
  {
    if order != [] {
      var before, next := order[..|order| - 1], order[|order| - 1];
      ButtonAfterResets(buttons, before, items, defaults, key);
      assert order == before + [next];
      NextReset(buttons, before, next, items, defaults, key);
    }
  }

  lemma NextReset(buttons: Buttons, before: seq<string>, next: string, items: seq<Item>,
                  defaults: map<string, string>, key: string)
    requires AfterResets(EditLooks(Begin(buttons), Resets(before, items, buttons, defaults)).buttons, buttons, before,
                         items, defaults, key)
    ensures AfterResets(EditLooks(Begin(buttons), Resets(before + [next], items, buttons, defaults)).buttons, buttons,
                        before + [next], items, defaults, key)
  {
    var edits := Resets(before, items, buttons, defaults);
    OneLookEdit(Begin(buttons), edits, Reset(next), key);
    assert (before + [next])[..|before|] == before;
  }

  ghost predicate AllDresses(edits: seq<LookEdit>) {
    forall i :: 0 <= i < |edits| ==> edits[i].Dress?
  }

  lemma {:induction false} DressesOnlyDress(chosen: seq<Item>)
    ensures AllDresses(Dresses(chosen))
  {
    if chosen != [] {
      DressesOnlyDress(chosen[..|chosen| - 1]);
    }
  }

  /** What the last dressing of `key` that sets a field sets it to. */
  function LastSet<T>(edits: seq<LookEdit>, key: string, field: Paint -> Option<T>): Option<T> {
    if edits == [] then None
    else
      var last := edits[|edits| - 1];
      if last.Dress? && last.key == key && field(last.paint).Some? then field(last.paint)
      else LastSet(edits[..|edits| - 1], key, field)
  }

  function TextIn(p: Paint): Option<string> {
    p.text
  }

  function StyleIn(p: Paint): Option<string> {
    p.style
  }

  function IconIn(p: Paint): Option<int> {
    p.icon
  }

  function TextSet(edits: seq<LookEdit>, key: string): Option<string> {
    LastSet(edits, key, TextIn)
  }

  function StyleSet(edits: seq<LookEdit>, key: string): Option<string> {
    LastSet(edits, key, StyleIn)
  }

  function IconSet(edits: seq<LookEdit>, key: string): Option<int> {
    LastSet(edits, key, IconIn)
  }

  /** Each field of the look on its own: the last value set, or else the one it had. */
  ghost predicate Wears(now: Look, was: Look, edits: seq<LookEdit>, key: string) {
    && now.text == (if TextSet(edits, key).Some? then TextSet(edits, key).value else was.text)
    && now.style == (if StyleSet(edits, key).Some? then Some(StoredStyle(StyleSet(edits, key).value)) else was.style)
    && now.icon == (if IconSet(edits, key).Some? then IconSet(edits, key) else was.icon)
  }

  lemma {:induction false} NothingSet(edits: seq<LookEdit>, key: string)
    requires LookEdits(edits, key) == 0
    ensures TextSet(edits, key) == None && StyleSet(edits, key) == None && IconSet(edits, key) == None
  {
    if edits != [] {
      NothingSet(edits[..|edits| - 1], key);
    }
  }

  lemma OneMoreDress(now: Look, was: Look, before: seq<LookEdit>, last: LookEdit, key: string)
    requires Wears(now, was, before, key) && last.Dress?
    ensures Wears(if last.key == key then Painted(now, last.paint) else now, was, before + [last], key)
    ensures LookEdits(before + [last], key) == LookEdits(before, key) + (if last.key == key then 1 else 0)
  {
    assert (before + [last])[..|before|] == before;
  }

  /** A button that may not exist yet, dressed. */
  ghost predicate Dressed(b: Bench, now: Buttons, dresses: seq<LookEdit>, key: string) {
    && (key in now <==> key in b.buttons || LookEdits(dresses, key) > 0)
    && RowOf(now, key).spot == RowOf(b.buttons, key).spot
    && Wears(RowOf(now, key).look, RowOf(b.buttons, key).look, dresses, key)
  }

  lemma {:induction false} ButtonAfterDresses(b: Bench, dresses: seq<LookEdit>, key: string)
    requires AllDresses(dresses)
    ensures Dressed(b, EditLooks(b, dresses).buttons, dresses, key)
  {
    if dresses != [] {
      var before, last := dresses[..|dresses| - 1], dresses[|dresses| - 1];
      ButtonAfterDresses(b, before, key);
      assert dresses == before + [last];
      NextDress(b, before, last, key);
    }
  }

  lemma NextDress(b: Bench, before: seq<LookEdit>, last: LookEdit, key: string)
    requires last.Dress? && Dressed(b, EditLooks(b, before).buttons, before, key)
    ensures Dressed(b, EditLooks(b, before + [last]).buttons, before + [last], key)
  {
    OneLookEdit(b, before, last, key);
    OneMoreDress(RowOf(EditLooks(b, before).buttons, key).look, RowOf(b.buttons, key).look, before, last, key);
  }

  // ---- places ----------------------------------------------------------------------------------

  lemma {:induction false} PlacedRow(before: map<string, (nat, nat)>, row: seq<string>, r: nat)
    ensures PlaceRow(before, row, r).Keys == before.Keys + set k | k in row
    ensures forall k :: k in before && k !in row ==> PlaceRow(before, row, r)[k] == before[k]
    ensures NoRepeat(row) ==> forall p :: 0 <= p < |row| ==> PlaceRow(before, row, r)[row[p]] == (r, p)
  {
    if row != [] {
      var n := |row| - 1;
      PlacedRow(before, row[..n], r);
      assert row == row[..n] + [row[n]];
    }
  }

  predicate StandsAt(rows: seq<seq<string>>, r: nat, p: nat, key: string) {
    r < |rows| && p < |rows[r]| && rows[r][p] == key
  }

  /** The enumeration places exactly the keys of the rows, each where it stands. */
  lemma {:induction false} KeysStandWhereTheyAre(rows: seq<seq<string>>)
    requires NoRepeat(Flat(rows))
    ensures forall k :: k in Placement(rows) <==> k in Flat(rows)
    ensures forall r: nat, p: nat, k :: StandsAt(rows, r, p, k) ==> k in Placement(rows) && Placement(rows)[k] == (r, p)
    ensures forall k :: k in Placement(rows) ==> StandsAt(rows, Placement(rows)[k].0, Placement(rows)[k].1, k)
  {
    if rows != [] {
      var n := |rows| - 1;
      SplitNoRepeat(Flat(rows[..n]), rows[n]);
      KeysStandWhereTheyAre(rows[..n]);
      PlacedRow(Placement(rows[..n]), rows[n], n);
      forall r: nat, p: nat, k | StandsAt(rows, r, p, k)
        ensures k in Placement(rows) && Placement(rows)[k] == (r, p)
      {
        if r < n {
          assert StandsAt(rows[..n], r, p, k);
        }
      }
      forall k | k in Placement(rows) ensures StandsAt(rows, Placement(rows)[k].0, Placement(rows)[k].1, k) {
        if k in rows[n] {
          var p :| 0 <= p < |rows[n]| && rows[n][p] == k;
          assert StandsAt(rows, n, p, k);
        }
      }
    }
  }

  lemma {:induction false} ButtonAfterEnsuring(b: Bench, keys: seq<string>, key: string)
    ensures key in EnsuredAll(b, keys).buttons <==> key in b.buttons || key in keys
    ensures key in EnsuredAll(b, keys).buttons ==> EnsuredAll(b, keys).buttons[key] == RowOf(b.buttons, key)
  {
    if keys != [] {
      var n := |keys| - 1;
      ButtonAfterEnsuring(b, keys[..n], key);
      assert keys == keys[..n] + [keys[n]];
    }
  }

  predicate Places(layout: Option<Layout>, key: string) {
    layout.Some? && key in Flat(layout.value.rows)
  }

  /** A new layout gives each of its keys its row, its position and its visibility, and unplaces the rest. */
  ghost predicate Sits(now: Spot, was: Spot, layout: Option<Layout>, key: string) {
    && (layout.None? ==> now == was)
    && (layout.Some? && !Places(layout, key) ==> now == Spot(None, None, was.hidden))
    && (layout.Some? ==> forall r: nat, p: nat :: StandsAt(layout.value.rows, r, p, key) ==>
         now == Spot(Some(r), Some(p), key in layout.value.hidden))
  }

  lemma ButtonAfterPlacing(b: Bench, layout: Option<Layout>, key: string)
    requires layout.Some? ==> NoRepeat(Flat(layout.value.rows))
    ensures var now := Placed(b, layout).buttons;
      && (key in now <==> key in b.buttons || Places(layout, key))
      && (key in now ==> now[key].look == RowOf(b.buttons, key).look)
      && (key in now ==> Sits(now[key].spot, RowOf(b.buttons, key).spot, layout, key))
  {
    if layout.Some? {
      ButtonAfterEnsuring(b, Flat(layout.value.rows), key);
      KeysStandWhereTheyAre(layout.value.rows);
    }
  }

  lemma ButtonAfterLooks(s: Store, items: seq<Item>, chosen: seq<Item>, replace: bool, defaults: map<string, string>,
                         buttonOrder: seq<string>, key: string)
    requires PickedFrom(chosen, items) && (key in s.buttons ==> key in buttonOrder)
    ensures var p := PlanOf(s, items, chosen, replace, defaults, [], buttonOrder);
      var now := EditLooks(Begin(s.buttons), p.resets + p.dresses).buttons;
      && (key in now <==> key in s.buttons || LookEdits(Dresses(chosen), key) > 0)
      && RowOf(now, key).spot == RowOf(s.buttons, key).spot
      && Wears(RowOf(now, key).look, Undressed(s.buttons, key, replace, items, defaults).look, Dresses(chosen), key)
  {
    var p := PlanOf(s, items, chosen, replace, defaults, [], buttonOrder);
    EditLooksConcat(Begin(s.buttons), p.resets, p.dresses);
    if replace {
      ButtonAfterResets(s.buttons, buttonOrder, items, defaults, key);
    }
    DressesOnlyDress(chosen);
    ButtonAfterDresses(EditLooks(Begin(s.buttons), p.resets), p.dresses, key);
  }

  /**
   * The button stored under a key after an apply: it exists if it did, or was chosen, or is placed; each field
   * of its look is the last one chosen for it, else the built-in one if a replace reset it, else the old one;
   * and it sits where the layout puts it.
   */
  lemma ButtonAfterApply(s: Store, items: seq<Item>, chosen: seq<Item>, replace: bool, defaults: map<string, string>,
                         textOrder: seq<Slot>, buttonOrder: seq<string>, key: string)
    requires PickedFrom(chosen, items) && (key in s.buttons ==> key in buttonOrder)
    requires ChosenLayout(chosen).Some? ==> NoRepeat(Flat(ChosenLayout(chosen).value.rows))
    ensures var p := PlanOf(s, items, chosen, replace, defaults, textOrder, buttonOrder);
      var now, dresses := Applied(s, p).buttons, Dresses(chosen);
      && (key in now <==> key in s.buttons || LookEdits(dresses, key) > 0 || Places(ChosenLayout(chosen), key))
      && (key in now ==>
           Wears(now[key].look, Undressed(s.buttons, key, replace, items, defaults).look, dresses, key))
      && (key in now ==> Sits(now[key].spot, RowOf(s.buttons, key).spot, ChosenLayout(chosen), key))
  {
    var p := PlanOf(s, items, chosen, replace, defaults, textOrder, buttonOrder);
    ButtonAfterLooks(s, items, chosen, replace, defaults, buttonOrder, key);
    ButtonAfterPlacing(EditLooks(Begin(s.buttons), p.resets + p.dresses), p.layout, key);
  }

  // ---- replacing leaves only the pack -----------------------------------------------------------

  lemma UndressedWearsItsOwn(now: Look, was: Look, edits: seq<LookEdit>, key: string)
    requires Wears(now, was, edits, key) && LookEdits(edits, key) == 0
    ensures now == was
  {
    NothingSet(edits, key);
  }

  /** A look the bot would give the button itself: no colour, no icon, and a label that is blank, its glass
      brackets aside, or the built-in one. */
  predicate IsBuiltIn(key: string, look: Look, defaults: map<string, string>) {
    look.style == None && look.icon == None
    && (UnglassText(look.text) == "" || (key in defaults && look.text == defaults[key]))
  }

  lemma BuiltInIffNotCustomized(key: string, look: Look, defaults: map<string, string>)
    ensures IsBuiltIn(key, look, defaults) <==> !Customized(key, look, defaults)
  {
  }

  /** After a replace an unmentioned button that looked built in is as it was, and any other one is blank. */
  lemma UnmentionedAfterReplace(s: Store, items: seq<Item>, chosen: seq<Item>, defaults: map<string, string>,
                                textOrder: seq<Slot>, buttonOrder: seq<string>, key: string)
    requires PickedFrom(chosen, items) && key in s.buttons && key in buttonOrder && !MentionsButton(items, key)
    requires ChosenLayout(chosen).Some? ==> NoRepeat(Flat(ChosenLayout(chosen).value.rows))
    ensures var after := Applied(s, PlanOf(s, items, chosen, true, defaults, textOrder, buttonOrder)).buttons;
      && key in after
      && after[key].look ==
           if IsBuiltIn(key, s.buttons[key].look, defaults) then s.buttons[key].look else Look("", None, None)
  {
    var after := Applied(s, PlanOf(s, items, chosen, true, defaults, textOrder, buttonOrder)).buttons;
    ButtonAfterApply(s, items, chosen, true, defaults, textOrder, buttonOrder, key);
    DressesAreMentioned(chosen, items, key);
    UndressedWearsItsOwn(after[key].look, Undressed(s.buttons, key, true, items, defaults).look, Dresses(chosen), key);
    BuiltInIffNotCustomized(key, s.buttons[key].look, defaults);
  }

  /** After a replace every stored text is mentioned or private, and every unmentioned button looks built in. */
  lemma ReplaceLeavesOnlyThePack(s: Store, items: seq<Item>, chosen: seq<Item>, defaults: map<string, string>,
                                 textOrder: seq<Slot>, buttonOrder: seq<string>)
    requires PickedFrom(chosen, items)
    requires forall slot :: slot in s.texts ==> slot in textOrder
    requires forall key :: key in s.buttons ==> key in buttonOrder
    requires ChosenLayout(chosen).Some? ==> NoRepeat(Flat(ChosenLayout(chosen).value.rows))
    ensures var after := Applied(s, PlanOf(s, items, chosen, true, defaults, textOrder, buttonOrder));
      && (forall slot :: slot in after.texts ==> Spared(items, slot))
      && (forall key :: key in after.buttons && !MentionsButton(items, key) ==>
           IsBuiltIn(key, after.buttons[key].look, defaults))
  {
    var after := Applied(s, PlanOf(s, items, chosen, true, defaults, textOrder, buttonOrder));
    forall slot | slot in after.texts ensures Spared(items, slot) {
      TextAfterApply(s, items, chosen, true, defaults, textOrder, buttonOrder, slot);
      if LastValue(Writes(chosen), slot).Some? {
        WrittenIsEdited(Writes(chosen), slot);
        WritesAreMentioned(chosen, items, slot);
      }
    }
    forall key | key in after.buttons && !MentionsButton(items, key)
      ensures IsBuiltIn(key, after.buttons[key].look, defaults)
    {
      ButtonAfterApply(s, items, chosen, true, defaults, textOrder, buttonOrder, key);
      DressesAreMentioned(chosen, items, key);
      UndressedWearsItsOwn(after.buttons[key].look, Undressed(s.buttons, key, true, items, defaults).look,
                           Dresses(chosen), key);
      BuiltInIffNotCustomized(key, after.buttons[key].look, defaults);
    }
  }
}
