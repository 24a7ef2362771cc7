// What applying a theme pack writes and what undoing it puts back (app/services/theme_pack.py). The
// texts are a map from (key, language), the buttons a map from key; `apply` turns the ticked entries
// into edits, records what each edit replaced, and `undo_last_import` replays that record.
module ThemeStore {
  import opened Common
  import opened Glass

  datatype Slot = Slot(key: string, lang: string)
  datatype Text = Text(value: string, bannerUrl: Option<string>, bannerPosition: Option<string>)
  datatype Look = Look(text: string, style: Option<string>, icon: Option<int>)
  datatype Spot = Spot(sortRow: Option<int>, sortOrder: Option<int>, hidden: bool)
  datatype Button = Button(look: Look, spot: Spot)

  type Texts = map<Slot, Text>
  type Buttons = map<string, Button>
  datatype Store = Store(texts: Texts, buttons: Buttons)

  const NO_LOOK := Look("", None, None)
  const NEW_BUTTON := Button(NO_LOOK, Spot(None, None, false))

  function Lookup<K, V>(m: map<K, V>, k: K): Option<V> {
    if k in m then Some(m[k]) else None
  }

  // ---- entries of a parsed pack, and which of them apply ------------------------------------

  datatype Paint = Paint(text: Option<string>, style: Option<string>, icon: Option<int>)
  datatype Layout = Layout(rows: seq<seq<string>>, hidden: seq<string>)

  /** One parsed entry; its payload is None when the entry is invalid or unknown. */
  datatype Item =
    | TextItem(key: string, lang: Option<string>, value: Option<string>)
    | ButtonItem(key: string, paint: Option<Paint>)
    | LayoutItem(layout: Option<Layout>)

  function Id(item: Item): string {
    match item
    case TextItem(key, lang, _) => "text:" + key + ":" + (if lang.Some? then lang.value else "?")
    case ButtonItem(key, _) => "button:" + key
    case LayoutItem(_) => "layout"
  }

  /** The stored form of a pack's style: "none" is kept as an empty string. */
  function StoredStyle(style: string): string {
    if style == "none" then "" else style
  }

  function Painted(look: Look, p: Paint): Look {
    Look(
      if p.text.Some? then p.text.value else look.text,
      if p.style.Some? then Some(StoredStyle(p.style.value)) else look.style,
      if p.icon.Some? then p.icon else look.icon
    )
  }

  predicate ButtonMatches(buttons: Buttons, key: string, p: Paint) {
    && key in buttons
    && (p.text.Some? ==> buttons[key].look.text == p.text.value)
    && (p.style.Some? ==> buttons[key].look.style == Some(StoredStyle(p.style.value)))
    && (p.icon.Some? ==> buttons[key].look.icon == p.icon)
  }

  /** Painting leaves a look as it is exactly when the button already matches. */
  lemma MatchingMeansNothingToPaint(buttons: Buttons, key: string, p: Paint)
    ensures ButtonMatches(buttons, key, p) <==> key in buttons && Painted(buttons[key].look, p) == buttons[key].look
  {
  }

  /** New or changed against `seen`; whether the layout is the current one is given. */
  predicate Applicable(item: Item, seen: Store, sameLayout: bool) {
    match item
    case TextItem(key, lang, value) =>
      && lang.Some? && value.Some?
      && (Slot(key, lang.value) in seen.texts ==> seen.texts[Slot(key, lang.value)].value != value.value)
    case ButtonItem(key, paint) => paint.Some? && !ButtonMatches(seen.buttons, key, paint.value)
    case LayoutItem(layout) => layout.Some? && !sameLayout
  }

  predicate Ticked(item: Item, wanted: Option<set<string>>) {
    wanted.Some? ==> Id(item) in wanted.value
  }

  function Chosen(items: seq<Item>, wanted: Option<set<string>>, seen: Store, sameLayout: bool): (r: seq<Item>)
    ensures forall i :: 0 <= i < |r| ==> r[i] in items && Applicable(r[i], seen, sameLayout) && Ticked(r[i], wanted)
  {
    if items == [] then []
    else
      var rest := Chosen(items[..|items| - 1], wanted, seen, sameLayout);
      var item := items[|items| - 1];
      if Applicable(item, seen, sameLayout) && Ticked(item, wanted) then rest + [item] else rest
  }

  // ---- what a pack mentions, and what replace mode resets ------------------------------------

  predicate MentionsText(items: seq<Item>, slot: Slot) {
    exists i :: 0 <= i < |items| && items[i].TextItem? && items[i].lang == Some(slot.lang) && items[i].key == slot.key
  }

  predicate MentionsButton(items: seq<Item>, key: string) {
    exists i :: 0 <= i < |items| && items[i].ButtonItem? && items[i].key == key
  }

  predicate IsPrivate(key: string) {
    "panel_locations_" <= key
  }

  /** The stored row changes the label, the colour or the icon of the button. */
  predicate Customized(key: string, look: Look, defaults: map<string, string>) {
    || (UnglassText(look.text) != [] && (key in defaults ==> look.text != defaults[key]))
    || look.style.Some?
    || look.icon.Some?
  }

  // ---- edits ----------------------------------------------------------------------------------

  datatype TextEdit = Write(slot: Slot, value: string) | Drop(slot: Slot)
  datatype LookEdit = Dress(key: string, paint: Paint) | Reset(key: string)

  function Drops(order: seq<Slot>, items: seq<Item>): seq<TextEdit> {
    if order == [] then []
    else
      var rest := Drops(order[..|order| - 1], items);
      var slot := order[|order| - 1];
      if MentionsText(items, slot) || IsPrivate(slot.key) then rest else rest + [Drop(slot)]
  }

  function Writes(chosen: seq<Item>): seq<TextEdit> {
    if chosen == [] then []
    else
      var rest := Writes(chosen[..|chosen| - 1]);
      match chosen[|chosen| - 1]
      case TextItem(key, Some(lang), Some(value)) => rest + [Write(Slot(key, lang), value)]
      case _ => rest
  }

  function Resets(order: seq<string>, items: seq<Item>, buttons: Buttons, defaults: map<string, string>)
    : seq<LookEdit>
  {
    if order == [] then []
    else
      var rest := Resets(order[..|order| - 1], items, buttons, defaults);
      var key := order[|order| - 1];
      if MentionsButton(items, key) || key !in buttons || !Customized(key, buttons[key].look, defaults) then rest
      else rest + [Reset(key)]
  }

  function Dresses(chosen: seq<Item>): seq<LookEdit> {
    if chosen == [] then []
    else
      var rest := Dresses(chosen[..|chosen| - 1]);
      match chosen[|chosen| - 1]
      case ButtonItem(key, Some(paint)) => rest + [Dress(key, paint)]
      case _ => rest
  }

  function ChosenLayout(chosen: seq<Item>): Option<Layout> {
    if chosen == [] then None
    else if chosen[0].LayoutItem? then chosen[0].layout
    else ChosenLayout(chosen[1..])
  }

  /** How often a slot, or a button, is edited. */
  function TextEdits(edits: seq<TextEdit>, slot: Slot): nat {
    if edits == [] then 0
    else TextEdits(edits[..|edits| - 1], slot) + (if edits[|edits| - 1].slot == slot then 1 else 0)
  }

  function LookEdits(edits: seq<LookEdit>, key: string): nat {
    if edits == [] then 0
    else LookEdits(edits[..|edits| - 1], key) + (if edits[|edits| - 1].key == key then 1 else 0)
  }

  // ---- carrying the edits out, with a record of what each one replaced -----------------------

  datatype Entry<K, V> = Entry(key: K, was: Option<V>)
  type TextEntries = seq<Entry<Slot, Text>>
  type LookEntries = seq<Entry<string, Look>>

  function EditText(t: Texts, e: TextEdit): Texts {
    match e
    case Write(slot, value) => t[slot := if slot in t then t[slot].(value := value) else Text(value, None, None)]
    case Drop(slot) => t - {slot}
  }

  function EditTexts(t: Texts, edits: seq<TextEdit>): Texts {
    if edits == [] then t else EditText(EditTexts(t, edits[..|edits| - 1]), edits[|edits| - 1])
  }

  /** The rows were read before the first edit: a slot absent then is recorded as absent. */
  function TextRecord(t: Texts, edits: seq<TextEdit>): TextEntries {
    if edits == [] then []
    else
      var before := edits[..|edits| - 1];
      var slot := edits[|edits| - 1].slot;
      TextRecord(t, before) + [Entry(slot, if slot in t then Lookup(EditTexts(t, before), slot) else None)]
  }

  /** Two inserts of one (key, lang): the unique constraint makes the whole apply fail. */
  ghost predicate InsertsTwice(t: Texts, writes: seq<TextEdit>) {
    exists slot :: slot !in t && TextEdits(writes, slot) >= 2
  }

  /** Buttons during an apply, the looks replaced so far and the keys created so far. */
  datatype Bench = Bench(buttons: Buttons, looks: LookEntries, created: set<string>)

  function Ensured(b: Bench, key: string): Bench {
    if key in b.buttons then b
    else b.(buttons := b.buttons[key := NEW_BUTTON], created := b.created + {key})
  }

  function EditedLook(look: Look, e: LookEdit): Look {
    match e
    case Dress(_, paint) => Painted(look, paint)
    case Reset(_) => NO_LOOK
  }

  function OldLook(buttons: Buttons, key: string): Option<Look> {
    if key in buttons then Some(buttons[key].look) else None
  }

  function EditLook(b: Bench, e: LookEdit): Bench {
    var noted :=
      if e.key in b.created then b else b.(looks := b.looks + [Entry(e.key, OldLook(b.buttons, e.key))]);
    var ready := Ensured(noted, e.key);
    var row := ready.buttons[e.key];
    ready.(buttons := ready.buttons[e.key := row.(look := EditedLook(row.look, e))])
  }

  function EditLooks(b: Bench, edits: seq<LookEdit>): Bench {
    if edits == [] then b else EditLook(EditLooks(b, edits[..|edits| - 1]), edits[|edits| - 1])
  }

  function EnsuredAll(b: Bench, keys: seq<string>): Bench {
    if keys == [] then b else Ensured(EnsuredAll(b, keys[..|keys| - 1]), keys[|keys| - 1])
  }

  /** Where the first `n` keys of row `r` go, over the placement of the rows before it. */
  function PlaceRow(before: map<string, (nat, nat)>, row: seq<string>, r: nat): map<string, (nat, nat)> {
    if row == [] then before
    else PlaceRow(before, row[..|row| - 1], r)[row[|row| - 1] := (r, |row| - 1)]
  }

  function Placement(rows: seq<seq<string>>): map<string, (nat, nat)> {
    if rows == [] then map[] else PlaceRow(Placement(rows[..|rows| - 1]), rows[|rows| - 1], |rows| - 1)
  }

  function PlacedSpot(spot: Spot, key: string, layout: Layout): Spot {
    var placement := Placement(layout.rows);
    if key in placement then Spot(Some(placement[key].0), Some(placement[key].1), key in layout.hidden)
    else Spot(None, None, spot.hidden)
  }

  function Placed(b: Bench, layout: Option<Layout>): Bench {
    if layout.None? then b
    else
      var ready := EnsuredAll(b, Flat(layout.value.rows));
      ready.(buttons := map key | key in ready.buttons ::
        ready.buttons[key].(spot := PlacedSpot(ready.buttons[key].spot, key, layout.value)))
  }

  function Spots(buttons: Buttons): map<string, Spot> {
    map key | key in buttons :: buttons[key].spot
  }

  datatype Backup = Backup(texts: TextEntries, looks: LookEntries, created: set<string>,
                           layout: Option<map<string, Spot>>)

  /** The edits an apply makes to texts and looks, and the layout it puts in place. */
  datatype Plan = Plan(drops: seq<TextEdit>, writes: seq<TextEdit>, resets: seq<LookEdit>, dresses: seq<LookEdit>,
                       layout: Option<Layout>)

  function PlanOf(s: Store, items: seq<Item>, chosen: seq<Item>, replace: bool, defaults: map<string, string>,
                  textOrder: seq<Slot>, buttonOrder: seq<string>): Plan
  {
    Plan(
      if replace then Drops(textOrder, items) else [],
      Writes(chosen),
      if replace then Resets(buttonOrder, items, s.buttons, defaults) else [],
      Dresses(chosen),
      ChosenLayout(chosen)
    )
  }

  function Workbench(s: Store, p: Plan): Bench {
    Placed(EditLooks(Begin(s.buttons), p.resets + p.dresses), p.layout)
  }

  function Applied(s: Store, p: Plan): Store {
    Store(EditTexts(s.texts, p.drops + p.writes), Workbench(s, p).buttons)
  }

  function BackupOf(s: Store, p: Plan): Backup {
    Backup(
      TextRecord(s.texts, p.drops + p.writes),
      Workbench(s, p).looks,
      Workbench(s, p).created,
      if p.layout.Some? then Some(Spots(s.buttons)) else None
    )
  }

  // ---- undo ------------------------------------------------------------------------------------

  function Put<K, V>(m: map<K, V>, e: Entry<K, V>): map<K, V> {
    if e.was.Some? then m[e.key := e.was.value] else m - {e.key}
  }

  function PutBack<K, V>(m: map<K, V>, entries: seq<Entry<K, V>>): map<K, V> {
    if entries == [] then m else Put(PutBack(m, entries[..|entries| - 1]), entries[|entries| - 1])
  }

  function PutLook(b: Buttons, e: Entry<string, Look>): Buttons {
    if e.key in b && e.was.Some? then b[e.key := b[e.key].(look := e.was.value)] else b
  }

  function PutLooks(b: Buttons, entries: LookEntries): Buttons {
    if entries == [] then b else PutLook(PutLooks(b, entries[..|entries| - 1]), entries[|entries| - 1])
  }

  function PutSpots(b: Buttons, layout: Option<map<string, Spot>>): Buttons {
    if layout.None? then b
    else map key | key in b :: if key in layout.value then b[key].(spot := layout.value[key]) else b[key]
  }

  function Undone(s: Store, backup: Backup): Store {
    Store(
      PutBack(s.texts, backup.texts),
      PutSpots(PutLooks(s.buttons, backup.looks), backup.layout) - backup.created
    )
  }

  ghost predicate SameMissingRow(t: Texts, entries: TextEntries, i: nat, j: nat)
    requires i < |entries| && j < |entries|
  {
    entries[i].key == entries[j].key && entries[i].key !in t
  }

  ghost predicate RepeatsWithin(t: Texts, entries: TextEntries, n: nat)
    requires n <= |entries|
  {
    exists i, j :: 0 <= i < j < n && SameMissingRow(t, entries, i, j)
  }

  /** Undo looks every row up before it writes: two entries for one missing row insert it twice. */
  ghost predicate ReinsertsTwice(t: Texts, entries: TextEntries) {
    RepeatsWithin(t, entries, |entries|)
  }

  // ---- texts come back -------------------------------------------------------------------------

  /** What a record says about `key`: the last entry wins. */
  function LastOld<K(==), V>(entries: seq<Entry<K, V>>, key: K, otherwise: Option<V>): Option<V> {
    if entries == [] then otherwise
    else if entries[|entries| - 1].key == key then entries[|entries| - 1].was
    else LastOld(entries[..|entries| - 1], key, otherwise)
  }

  lemma {:induction false} LastEntryWins<K, V>(m: map<K, V>, entries: seq<Entry<K, V>>, key: K)
    ensures Lookup(PutBack(m, entries), key) == LastOld(entries, key, Lookup(m, key))
  {
    if entries != [] {
      LastEntryWins(m, entries[..|entries| - 1], key);
    }
  }

  lemma {:induction false} UneditedTextStays(t: Texts, edits: seq<TextEdit>, slot: Slot)
    requires TextEdits(edits, slot) == 0
    ensures Lookup(EditTexts(t, edits), slot) == Lookup(t, slot)
    ensures forall d :: LastOld(TextRecord(t, edits), slot, d) == d
  {
    if edits != [] {
      UneditedTextStays(t, edits[..|edits| - 1], slot);
    }
  }

  lemma {:induction false} TextEditedOnceIsRecorded(t: Texts, edits: seq<TextEdit>, slot: Slot)
    requires TextEdits(edits, slot) == 1
    ensures forall d :: LastOld(TextRecord(t, edits), slot, d) == Lookup(t, slot)
  {
    var before := edits[..|edits| - 1];
    if edits[|edits| - 1].slot == slot {
      UneditedTextStays(t, before, slot);
    } else {
      TextEditedOnceIsRecorded(t, before, slot);
    }
  }

  /** Every edit of `slot` writes something other than `value`. */
  ghost predicate NeverWrites(edits: seq<TextEdit>, slot: Slot, value: string) {
    forall i :: 0 <= i < |edits| && edits[i].slot == slot ==> edits[i].Write? && edits[i].value != value
  }

  lemma {:induction false} EditedTextDiffers(t: Texts, edits: seq<TextEdit>, slot: Slot, value: string)
    requires TextEdits(edits, slot) >= 1 && NeverWrites(edits, slot, value)
    ensures slot in EditTexts(t, edits) && EditTexts(t, edits)[slot].value != value
  {
    var before := edits[..|edits| - 1];
    if edits[|edits| - 1].slot != slot {
      assert NeverWrites(before, slot, value);
      EditedTextDiffers(t, before, slot, value);
    }
  }

  lemma {:induction false} TextEditedTwiceIsLost(t: Texts, edits: seq<TextEdit>, slot: Slot)
    requires slot in t && TextEdits(edits, slot) >= 2 && NeverWrites(edits, slot, t[slot].value)
    ensures forall d :: LastOld(TextRecord(t, edits), slot, d) != Some(t[slot])
  {
    var before := edits[..|edits| - 1];
    assert NeverWrites(before, slot, t[slot].value);
    if edits[|edits| - 1].slot == slot {
      EditedTextDiffers(t, before, slot, t[slot].value);
    } else {
      TextEditedTwiceIsLost(t, before, slot);
    }
  }

  /** Undoing the text edits gives `slot` back exactly when it was edited at most once. */
  lemma TextComesBack(t: Texts, edits: seq<TextEdit>, slot: Slot)
    ensures TextEdits(edits, slot) <= 1 ==>
      Lookup(PutBack(EditTexts(t, edits), TextRecord(t, edits)), slot) == Lookup(t, slot)
    ensures (slot in t && TextEdits(edits, slot) >= 2 && NeverWrites(edits, slot, t[slot].value)) ==>
      Lookup(PutBack(EditTexts(t, edits), TextRecord(t, edits)), slot) != Lookup(t, slot)
  {
    LastEntryWins(EditTexts(t, edits), TextRecord(t, edits), slot);
    if TextEdits(edits, slot) == 0 {
      UneditedTextStays(t, edits, slot);
    } else if TextEdits(edits, slot) == 1 {
      TextEditedOnceIsRecorded(t, edits, slot);
    } else if slot in t && NeverWrites(edits, slot, t[slot].value) {
      TextEditedTwiceIsLost(t, edits, slot);
    }
  }

  // ---- buttons come back -----------------------------------------------------------------------

  /** Against the buttons it started from, a bench has only added keys and kept every old spot. */
  ghost predicate Grown(start: Buttons, b: Bench) {
    && start.Keys <= b.buttons.Keys
    && b.created == b.buttons.Keys - start.Keys
    && forall key :: key in start ==> b.buttons[key].spot == start[key].spot
  }

  function Begin(start: Buttons): Bench {
    Bench(start, [], {})
  }

  lemma {:induction false} EditsOnlyGrow(start: Buttons, edits: seq<LookEdit>)
    ensures Grown(start, EditLooks(Begin(start), edits))
  {
    if edits != [] {
      EditsOnlyGrow(start, edits[..|edits| - 1]);
    }
  }

  lemma {:induction false} EnsuringOnlyGrows(start: Buttons, b: Bench, keys: seq<string>)
    requires Grown(start, b)
    ensures Grown(start, EnsuredAll(b, keys)) && EnsuredAll(b, keys).looks == b.looks
    ensures forall key :: key in start ==> EnsuredAll(b, keys).buttons[key] == b.buttons[key]
  {
    if keys != [] {
      EnsuringOnlyGrows(start, b, keys[..|keys| - 1]);
    }
  }

  function LastLook(entries: LookEntries, key: string, otherwise: Look): Look {
    if entries == [] then otherwise
    else
      var e := entries[|entries| - 1];
      if e.key == key && e.was.Some? then e.was.value else LastLook(entries[..|entries| - 1], key, otherwise)
  }

  lemma {:induction false} LastLookWins(b: Buttons, entries: LookEntries)
    ensures PutLooks(b, entries).Keys == b.Keys
    ensures forall key :: key in b ==>
      PutLooks(b, entries)[key] == b[key].(look := LastLook(entries, key, b[key].look))
  {
    if entries != [] {
      LastLookWins(b, entries[..|entries| - 1]);
    }
  }

  lemma {:induction false} UneditedLookStays(start: Buttons, edits: seq<LookEdit>, key: string)
    requires key in start && LookEdits(edits, key) == 0
    ensures key in EditLooks(Begin(start), edits).buttons
    ensures EditLooks(Begin(start), edits).buttons[key].look == start[key].look
    ensures forall d :: LastLook(EditLooks(Begin(start), edits).looks, key, d) == d
  {
    if edits != [] {
      UneditedLookStays(start, edits[..|edits| - 1], key);
    }
  }

  lemma {:induction false} LookEditedOnceIsRecorded(start: Buttons, edits: seq<LookEdit>, key: string)
    requires key in start && LookEdits(edits, key) == 1
    ensures forall d :: LastLook(EditLooks(Begin(start), edits).looks, key, d) == start[key].look
  {
    var before := edits[..|edits| - 1];
    EditsOnlyGrow(start, before);
    if edits[|edits| - 1].key == key {
      UneditedLookStays(start, before, key);
    } else {
      LookEditedOnceIsRecorded(start, before, key);
    }
  }

  /** Every edit of `key` writes some field that differs from `look`. */
  ghost predicate NeverPaints(edits: seq<LookEdit>, key: string, look: Look) {
    forall i :: 0 <= i < |edits| && edits[i].key == key ==> edits[i].Dress? && Painted(look, edits[i].paint) != look
  }

  lemma {:induction false} EditedLookDiffers(start: Buttons, edits: seq<LookEdit>, key: string, look: Look)
    requires LookEdits(edits, key) >= 1 && NeverPaints(edits, key, look)
    ensures key in EditLooks(Begin(start), edits).buttons
    ensures EditLooks(Begin(start), edits).buttons[key].look != look
  {
    var before := edits[..|edits| - 1];
    if edits[|edits| - 1].key != key {
      assert NeverPaints(before, key, look);
      EditedLookDiffers(start, before, key, look);
    }
  }

  lemma {:induction false} LookEditedTwiceIsLost(start: Buttons, edits: seq<LookEdit>, key: string)
    requires key in start && LookEdits(edits, key) >= 2 && NeverPaints(edits, key, start[key].look)
    ensures forall d :: LastLook(EditLooks(Begin(start), edits).looks, key, d) != start[key].look
  {
    var before := edits[..|edits| - 1];
    EditsOnlyGrow(start, before);
    assert NeverPaints(before, key, start[key].look);
    if edits[|edits| - 1].key == key {
      EditedLookDiffers(start, before, key, start[key].look);
    } else {
      LookEditedTwiceIsLost(start, before, key);
    }
  }

  /** What undo makes of the buttons: no key added or lost, every spot as before, looks from the record. */
  lemma UndoneButtons(s: Store, p: Plan)
    ensures Undone(Applied(s, p), BackupOf(s, p)).buttons.Keys == s.buttons.Keys
    ensures s.buttons.Keys <= Workbench(s, p).buttons.Keys
    ensures forall key :: key in s.buttons ==>
      Undone(Applied(s, p), BackupOf(s, p)).buttons[key]
        == s.buttons[key].(look := LastLook(Workbench(s, p).looks, key, Workbench(s, p).buttons[key].look))
    ensures Workbench(s, p).looks == EditLooks(Begin(s.buttons), p.resets + p.dresses).looks
    ensures forall key :: key in s.buttons ==>
      && key in EditLooks(Begin(s.buttons), p.resets + p.dresses).buttons
      && Workbench(s, p).buttons[key].look == EditLooks(Begin(s.buttons), p.resets + p.dresses).buttons[key].look
  {
    var painted := EditLooks(Begin(s.buttons), p.resets + p.dresses);
    EditsOnlyGrow(s.buttons, p.resets + p.dresses);
    if p.layout.Some? {
      EnsuringOnlyGrows(s.buttons, painted, Flat(p.layout.value.rows));
    }
    LastLookWins(Workbench(s, p).buttons, Workbench(s, p).looks);
  }

  /** Undo gives `key` its look back exactly when the look was edited at most once. */
  lemma ButtonComesBack(s: Store, p: Plan, key: string)
    requires key in s.buttons
    ensures key in Undone(Applied(s, p), BackupOf(s, p)).buttons
    ensures LookEdits(p.resets + p.dresses, key) <= 1 ==>
      Undone(Applied(s, p), BackupOf(s, p)).buttons[key] == s.buttons[key]
    ensures (LookEdits(p.resets + p.dresses, key) >= 2
          && NeverPaints(p.resets + p.dresses, key, s.buttons[key].look)) ==>
      Undone(Applied(s, p), BackupOf(s, p)).buttons[key] != s.buttons[key]
  {
    var edits := p.resets + p.dresses;
    UndoneButtons(s, p);
    if LookEdits(edits, key) == 0 {
      UneditedLookStays(s.buttons, edits, key);
    } else if LookEdits(edits, key) == 1 {
      LookEditedOnceIsRecorded(s.buttons, edits, key);
    } else if NeverPaints(edits, key, s.buttons[key].look) {
      LookEditedTwiceIsLost(s.buttons, edits, key);
    }
  }

  // ---- how often a plan edits one thing ----------------------------------------------------------

  lemma {:induction false} TextEditsConcat(a: seq<TextEdit>, b: seq<TextEdit>, slot: Slot)
    ensures TextEdits(a + b, slot) == TextEdits(a, slot) + TextEdits(b, slot)
  {
    if b == [] {
      assert a + b == a;
    } else {
      TextEditsConcat(a, b[..|b| - 1], slot);
      assert (a + b)[..|a + b| - 1] == a + b[..|b| - 1];
    }
  }

  lemma {:induction false} LookEditsConcat(a: seq<LookEdit>, b: seq<LookEdit>, key: string)
    ensures LookEdits(a + b, key) == LookEdits(a, key) + LookEdits(b, key)
  {
    if b == [] {
      assert a + b == a;
    } else {
      LookEditsConcat(a, b[..|b| - 1], key);
      assert (a + b)[..|a + b| - 1] == a + b[..|b| - 1];
    }
  }

  /** Replace mode drops a row at most once, and only rows the pack does not mention. */
  lemma {:induction false} DropsAreRare(order: seq<Slot>, items: seq<Item>, slot: Slot)
    requires NoRepeat(order)
    ensures TextEdits(Drops(order, items), slot) <= 1
    ensures (MentionsText(items, slot) || slot !in order) ==> TextEdits(Drops(order, items), slot) == 0
    ensures forall i :: 0 <= i < |Drops(order, items)| ==> !MentionsText(items, Drops(order, items)[i].slot)
  {
    if order != [] {
      var n := |order| - 1;
      DropsAreRare(order[..n], items, slot);
      assert slot == order[n] ==> slot !in order[..n];
    }
  }

  lemma {:induction false} ResetsAreRare(order: seq<string>, items: seq<Item>, buttons: Buttons,
                                         defaults: map<string, string>, key: string)
    requires NoRepeat(order)
    ensures LookEdits(Resets(order, items, buttons, defaults), key) <= 1
    ensures (MentionsButton(items, key) || key !in order) ==>
      LookEdits(Resets(order, items, buttons, defaults), key) == 0
    ensures forall i :: 0 <= i < |Resets(order, items, buttons, defaults)| ==>
      !MentionsButton(items, Resets(order, items, buttons, defaults)[i].key)
  {
    if order != [] {
      var n := |order| - 1;
      ResetsAreRare(order[..n], items, buttons, defaults, key);
      assert key == order[n] ==> key !in order[..n];
    }
  }

  /** Entries picked from `items`, each applicable against `seen`. */
  ghost predicate PickedFrom(chosen: seq<Item>, items: seq<Item>) {
    forall i :: 0 <= i < |chosen| ==> chosen[i] in items
  }

  ghost predicate AllApply(chosen: seq<Item>, seen: Store, sameLayout: bool) {
    forall i :: 0 <= i < |chosen| ==> Applicable(chosen[i], seen, sameLayout)
  }

  lemma {:induction false} WritesAreMentioned(chosen: seq<Item>, items: seq<Item>, slot: Slot)
    requires PickedFrom(chosen, items)
    ensures TextEdits(Writes(chosen), slot) > 0 ==> MentionsText(items, slot)
  {
    if chosen != [] {
      WritesAreMentioned(chosen[..|chosen| - 1], items, slot);
      assert chosen[|chosen| - 1] in items;
    }
  }

  lemma {:induction false} DressesAreMentioned(chosen: seq<Item>, items: seq<Item>, key: string)
    requires PickedFrom(chosen, items)
    ensures LookEdits(Dresses(chosen), key) > 0 ==> MentionsButton(items, key)
  {
    if chosen != [] {
      DressesAreMentioned(chosen[..|chosen| - 1], items, key);
      assert chosen[|chosen| - 1] in items;
    }
  }

  lemma {:induction false} WritesDiffer(chosen: seq<Item>, seen: Store, sameLayout: bool, slot: Slot)
    requires AllApply(chosen, seen, sameLayout) && slot in seen.texts
    ensures NeverWrites(Writes(chosen), slot, seen.texts[slot].value)
  {
    if chosen != [] {
      WritesDiffer(chosen[..|chosen| - 1], seen, sameLayout, slot);
      assert Applicable(chosen[|chosen| - 1], seen, sameLayout);
    }
  }

  lemma {:induction false} DressesDiffer(chosen: seq<Item>, seen: Store, sameLayout: bool, key: string)
    requires AllApply(chosen, seen, sameLayout) && key in seen.buttons
    ensures NeverPaints(Dresses(chosen), key, seen.buttons[key].look)
  {
    if chosen != [] {
      var last := chosen[|chosen| - 1];
      DressesDiffer(chosen[..|chosen| - 1], seen, sameLayout, key);
      assert Applicable(last, seen, sameLayout);
      if last.ButtonItem? {
        MatchingMeansNothingToPaint(seen.buttons, last.key, last.paint.value);
      }
    }
  }

  // ---- main results ------------------------------------------------------------------------------

  /** No chosen text entry shares its (key, lang), no chosen button entry shares its stored button. */
  ghost predicate NothingTwice(s: Store, p: Plan) {
    && (forall slot :: TextEdits(p.writes, slot) <= 1)
    && (forall key :: key in s.buttons ==> LookEdits(p.dresses, key) <= 1)
  }

  lemma PlannedTextEdits(s: Store, items: seq<Item>, chosen: seq<Item>, replace: bool, defaults: map<string, string>,
                         textOrder: seq<Slot>, buttonOrder: seq<string>, slot: Slot)
    requires PickedFrom(chosen, items) && NoRepeat(textOrder)
    ensures var p := PlanOf(s, items, chosen, replace, defaults, textOrder, buttonOrder);
      && (TextEdits(p.writes, slot) <= 1 ==> TextEdits(p.drops + p.writes, slot) <= 1)
      && (TextEdits(p.writes, slot) >= 1 ==> TextEdits(p.drops + p.writes, slot) == TextEdits(p.writes, slot))
  {
    var p := PlanOf(s, items, chosen, replace, defaults, textOrder, buttonOrder);
    TextEditsConcat(p.drops, p.writes, slot);
    DropsAreRare(textOrder, items, slot);
    WritesAreMentioned(chosen, items, slot);
  }

  lemma PlannedLookEdits(s: Store, items: seq<Item>, chosen: seq<Item>, replace: bool, defaults: map<string, string>,
                         textOrder: seq<Slot>, buttonOrder: seq<string>, key: string)
    requires PickedFrom(chosen, items) && NoRepeat(buttonOrder)
    ensures var p := PlanOf(s, items, chosen, replace, defaults, textOrder, buttonOrder);
      && (LookEdits(p.dresses, key) <= 1 ==> LookEdits(p.resets + p.dresses, key) <= 1)
      && (LookEdits(p.dresses, key) >= 1 ==> LookEdits(p.resets + p.dresses, key) == LookEdits(p.dresses, key))
  {
    var p := PlanOf(s, items, chosen, replace, defaults, textOrder, buttonOrder);
    LookEditsConcat(p.resets, p.dresses, key);
    ResetsAreRare(buttonOrder, items, s.buttons, defaults, key);
    DressesAreMentioned(chosen, items, key);
  }

  /** Undo is the exact inverse of apply, in either mode, for any entries chosen from the pack. */
  lemma UndoRestoresEverything(s: Store, items: seq<Item>, chosen: seq<Item>, replace: bool,
                               defaults: map<string, string>, textOrder: seq<Slot>, buttonOrder: seq<string>)
    requires PickedFrom(chosen, items) && NoRepeat(textOrder) && NoRepeat(buttonOrder)
    requires NothingTwice(s, PlanOf(s, items, chosen, replace, defaults, textOrder, buttonOrder))
    ensures var p := PlanOf(s, items, chosen, replace, defaults, textOrder, buttonOrder);
      Undone(Applied(s, p), BackupOf(s, p)) == s
  {
    var p := PlanOf(s, items, chosen, replace, defaults, textOrder, buttonOrder);
    var back := Undone(Applied(s, p), BackupOf(s, p));
    forall slot ensures Lookup(back.texts, slot) == Lookup(s.texts, slot) {
      PlannedTextEdits(s, items, chosen, replace, defaults, textOrder, buttonOrder, slot);
      TextComesBack(s.texts, p.drops + p.writes, slot);
    }
    SameLookupsSameMap(back.texts, s.texts);
    UndoneButtons(s, p);
    forall key | key in s.buttons ensures back.buttons[key] == s.buttons[key] {
      PlannedLookEdits(s, items, chosen, replace, defaults, textOrder, buttonOrder, key);
      ButtonComesBack(s, p, key);
    }
    assert back.buttons == s.buttons;
  }

  lemma SameLookupsSameMap<K, V>(m: map<K, V>, n: map<K, V>)
    requires forall k :: Lookup(m, k) == Lookup(n, k)
    ensures m == n
  {
    assert forall k :: k in m ==> Lookup(m, k) == Lookup(n, k);
    assert forall k :: k in n ==> Lookup(m, k) == Lookup(n, k);
  }

  /** A (key, lang) written twice comes back with the value of the last but one write. */
  lemma TextWrittenTwiceIsNotUndone(s: Store, items: seq<Item>, chosen: seq<Item>, sameLayout: bool, replace: bool,
                                    defaults: map<string, string>, textOrder: seq<Slot>, buttonOrder: seq<string>,
                                    slot: Slot)
    requires PickedFrom(chosen, items) && AllApply(chosen, s, sameLayout) && NoRepeat(textOrder)
    requires slot in s.texts && TextEdits(Writes(chosen), slot) >= 2
    ensures var p := PlanOf(s, items, chosen, replace, defaults, textOrder, buttonOrder);
      Undone(Applied(s, p), BackupOf(s, p)).texts != s.texts
  {
    var p := PlanOf(s, items, chosen, replace, defaults, textOrder, buttonOrder);
    PlannedTextEdits(s, items, chosen, replace, defaults, textOrder, buttonOrder, slot);
    assert NeverWrites(p.drops + p.writes, slot, s.texts[slot].value) by {
      WritesDiffer(chosen, s, sameLayout, slot);
      DropsAreRare(textOrder, items, slot);
      WritesAreMentioned(chosen, items, slot);
    }
    TextComesBack(s.texts, p.drops + p.writes, slot);
  }

  lemma ButtonDressedTwiceIsNotUndone(s: Store, items: seq<Item>, chosen: seq<Item>, sameLayout: bool, replace: bool,
                                      defaults: map<string, string>, textOrder: seq<Slot>, buttonOrder: seq<string>,
                                      key: string)
    requires PickedFrom(chosen, items) && AllApply(chosen, s, sameLayout) && NoRepeat(buttonOrder)
    requires key in s.buttons && LookEdits(Dresses(chosen), key) >= 2
    ensures var p := PlanOf(s, items, chosen, replace, defaults, textOrder, buttonOrder);
      Undone(Applied(s, p), BackupOf(s, p)).buttons != s.buttons
  {
    var p := PlanOf(s, items, chosen, replace, defaults, textOrder, buttonOrder);
    PlannedLookEdits(s, items, chosen, replace, defaults, textOrder, buttonOrder, key);
    assert NeverPaints(p.resets + p.dresses, key, s.buttons[key].look) by {
      DressesDiffer(chosen, s, sameLayout, key);
      ResetsAreRare(buttonOrder, items, s.buttons, defaults, key);
      DressesAreMentioned(chosen, items, key);
    }
    ButtonComesBack(s, p, key);
  }

  /** For entries that differ from the store, undo is exact if and only if nothing was chosen twice. */
  lemma UndoIsExactIffNothingTwice(s: Store, items: seq<Item>, chosen: seq<Item>, sameLayout: bool, replace: bool,
                                   defaults: map<string, string>, textOrder: seq<Slot>, buttonOrder: seq<string>)
    requires PickedFrom(chosen, items) && AllApply(chosen, s, sameLayout)
    requires NoRepeat(textOrder) && NoRepeat(buttonOrder)
    requires !InsertsTwice(s.texts, Writes(chosen))
    ensures var p := PlanOf(s, items, chosen, replace, defaults, textOrder, buttonOrder);
      Undone(Applied(s, p), BackupOf(s, p)) == s <==> NothingTwice(s, p)
  {
    var p := PlanOf(s, items, chosen, replace, defaults, textOrder, buttonOrder);
    if NothingTwice(s, p) {
      UndoRestoresEverything(s, items, chosen, replace, defaults, textOrder, buttonOrder);
    } else if slot :| TextEdits(Writes(chosen), slot) >= 2 {
      TextWrittenTwiceIsNotUndone(s, items, chosen, sameLayout, replace, defaults, textOrder, buttonOrder, slot);
    } else {
      var key :| key in s.buttons && LookEdits(Dresses(chosen), key) >= 2;
      ButtonDressedTwiceIsNotUndone(s, items, chosen, sameLayout, replace, defaults, textOrder, buttonOrder, key);
    }
  }

  // ---- one more entry --------------------------------------------------------------------------

  lemma ChosenAppend(items: seq<Item>, item: Item, wanted: Option<set<string>>, seen: Store, sameLayout: bool)
    ensures Chosen(items + [item], wanted, seen, sameLayout)
         == Chosen(items, wanted, seen, sameLayout)
          + (if Applicable(item, seen, sameLayout) && Ticked(item, wanted) then [item] else [])
  {
  }

  lemma WritesAppend(chosen: seq<Item>, item: Item)
    ensures Writes(chosen + [item]) == Writes(chosen)
      + (if item.TextItem? && item.lang.Some? && item.value.Some?
         then [Write(Slot(item.key, item.lang.value), item.value.value)] else [])
  {
  }

  lemma TextEditsAppend(edits: seq<TextEdit>, e: TextEdit, slot: Slot)
    ensures TextEdits(edits + [e], slot) == TextEdits(edits, slot) + (if e.slot == slot then 1 else 0)
  {
  }

  lemma TwoWritesOfOneSlot(s: Store, slot: Slot, one: string, two: string)
    requires slot in s.texts && s.texts[slot].value != one && s.texts[slot].value != two
    ensures var items := [TextItem(slot.key, Some(slot.lang), Some(one)), TextItem(slot.key, Some(slot.lang), Some(two))];
      && Chosen(items, None, s, true) == items
      && Writes(items) == [Write(slot, one), Write(slot, two)]
  {
    var first, second := TextItem(slot.key, Some(slot.lang), Some(one)), TextItem(slot.key, Some(slot.lang), Some(two));
    ChosenAppend([], first, None, s, true);
    ChosenAppend([first], second, None, s, true);
    WritesAppend([], first);
    WritesAppend([first], second);
    assert [] + [first] == [first] && [first] + [second] == [first, second];
  }

  lemma EditsOfOneSlot(slot: Slot, one: string, two: string, other: Slot)
    ensures TextEdits([Write(slot, one), Write(slot, two)], other) == if other == slot then 2 else 0
  {
    TextEditsAppend([], Write(slot, one), other);
    TextEditsAppend([Write(slot, one)], Write(slot, two), other);
    assert [] + [Write(slot, one)] == [Write(slot, one)];
    assert [Write(slot, one)] + [Write(slot, two)] == [Write(slot, one), Write(slot, two)];
  }

  /** Merging all of `items` commits, and undoing it does not give the texts back. */
  ghost predicate LosesText(s: Store, items: seq<Item>) {
    var p := PlanOf(s, items, Chosen(items, None, s, true), false, map[], [], []);
    !InsertsTwice(s.texts, p.writes) && Undone(Applied(s, p), BackupOf(s, p)).texts != s.texts
  }

  lemma OneSlotTwiceIsNotUndone(s: Store, slot: Slot, one: string, two: string)
    requires slot in s.texts && s.texts[slot].value != one && s.texts[slot].value != two
    ensures LosesText(s, [TextItem(slot.key, Some(slot.lang), Some(one)),
                          TextItem(slot.key, Some(slot.lang), Some(two))])
  {
    var items := [TextItem(slot.key, Some(slot.lang), Some(one)), TextItem(slot.key, Some(slot.lang), Some(two))];
    TwoWritesOfOneSlot(s, slot, one, two);
    forall other ensures TextEdits(Writes(items), other) == if other == slot then 2 else 0 {
      EditsOfOneSlot(slot, one, two, other);
    }
    TextWrittenTwiceIsNotUndone(s, items, items, true, false, map[], [], [], slot);
  }
}
