// The theme tables and the two transactions on them: `apply` and `undo_last_import`. Both buffer their
// writes and commit at the end, so a failed transaction leaves the tables as they were.
module ThemeDesk {
  import opened Common
  import opened ThemeStore
  import opened ThemeEffects

  const KEEP_IMPORTS := 10

  datatype Record = Record(id: int, replace: bool, backup: Backup, restored: bool)

  datatype ApplyResult =
    | NothingToApply
    | DuplicateRow
    | Committed(applied: nat, texts: nat, buttons: nat, layout: bool, reset: nat, importId: int)

  datatype UndoResult = NothingToUndo | UndoDuplicateRow | PutBackImport(importId: int)

  /** _prune_imports: only the newest records stay, unless pruning itself failed. */
  function Kept(imports: seq<Record>, pruned: bool): seq<Record> {
    if pruned && |imports| > KEEP_IMPORTS then imports[|imports| - KEEP_IMPORTS..] else imports
  }

  ghost predicate AllCoherent(imports: seq<Record>) {
    forall i :: 0 <= i < |imports| ==> Coherent(imports[i].backup.texts)
  }

  /** A text named twice in one record existed before, so no entry says it was absent. */
  ghost predicate Coherent(entries: TextEntries) {
    forall i, j :: 0 <= i < j < |entries| && entries[i].key == entries[j].key ==>
      entries[i].was.Some? && entries[j].was.Some?
  }

  // ---- the record of an apply is coherent, and undoing it at once inserts nothing twice ------

  lemma {:induction false} RecordFollowsEdits(t: Texts, edits: seq<TextEdit>)
    ensures |TextRecord(t, edits)| == |edits|
    ensures forall i :: 0 <= i < |edits| ==>
      && TextRecord(t, edits)[i].key == edits[i].slot
      && TextRecord(t, edits)[i].was
           == if edits[i].slot in t then Lookup(EditTexts(t, edits[..i]), edits[i].slot) else None
  {
    if edits != [] {
      var before := edits[..|edits| - 1];
      RecordFollowsEdits(t, before);
      assert forall i :: 0 <= i <= |before| ==> before[..i] == edits[..i];
    }
  }

  lemma {:induction false} TwoPlacesAreTwoEdits(edits: seq<TextEdit>, i: nat, j: nat)
    requires i < j < |edits| && edits[i].slot == edits[j].slot
    ensures TextEdits(edits, edits[i].slot) >= 2
  {
    var n := |edits| - 1;
    if j < n {
      TwoPlacesAreTwoEdits(edits[..n], i, j);
    } else {
      OnePlaceIsOneEdit(edits[..n], i);
    }
  }

  lemma {:induction false} OnePlaceIsOneEdit(edits: seq<TextEdit>, i: nat)
    requires i < |edits|
    ensures TextEdits(edits, edits[i].slot) >= 1
  {
    var n := |edits| - 1;
    if i < n {
      OnePlaceIsOneEdit(edits[..n], i);
    }
  }

  ghost predicate NeverDrops(edits: seq<TextEdit>, slot: Slot) {
    forall i :: 0 <= i < |edits| && edits[i].slot == slot ==> edits[i].Write?
  }

  lemma {:induction false} UndroppedStays(t: Texts, edits: seq<TextEdit>, slot: Slot)
    requires slot in t && NeverDrops(edits, slot)
    ensures slot in EditTexts(t, edits)
  {
    if edits != [] {
      assert NeverDrops(edits[..|edits| - 1], slot);
      UndroppedStays(t, edits[..|edits| - 1], slot);
    }
  }

  lemma NeverDropsPrefix(edits: seq<TextEdit>, slot: Slot, n: nat)
    requires n <= |edits| && NeverDrops(edits, slot)
    ensures NeverDrops(edits[..n], slot)
  {
  }

  /** A slot edited twice was stored before, and nothing of the plan drops it. */
  lemma TwiceEditedIsStored(s: Store, items: seq<Item>, chosen: seq<Item>, replace: bool,
                            defaults: map<string, string>, textOrder: seq<Slot>, buttonOrder: seq<string>,
                            i: nat, j: nat)
    requires PickedFrom(chosen, items) && NoRepeat(textOrder)
    requires !InsertsTwice(s.texts, Writes(chosen))
    requires var p := PlanOf(s, items, chosen, replace, defaults, textOrder, buttonOrder);
      var edits := p.drops + p.writes;
      i < j < |edits| && edits[i].slot == edits[j].slot
    ensures var p := PlanOf(s, items, chosen, replace, defaults, textOrder, buttonOrder);
      var edits := p.drops + p.writes;
      edits[i].slot in s.texts && NeverDrops(edits, edits[i].slot)
  {
    var p := PlanOf(s, items, chosen, replace, defaults, textOrder, buttonOrder);
    var edits := p.drops + p.writes;
    var slot := edits[i].slot;
    TwoPlacesAreTwoEdits(edits, i, j);
    PlannedTextEdits(s, items, chosen, replace, defaults, textOrder, buttonOrder, slot);
    DropsAreRare(textOrder, items, slot);
    WritesAreMentioned(chosen, items, slot);
    WritesOnlyWrite(chosen);
  }

  /** What the record says about two edits of one slot. */
  lemma RecordedTwice(t: Texts, edits: seq<TextEdit>, i: nat, j: nat)
    requires i < j < |edits| && edits[i].slot == edits[j].slot
    requires edits[i].slot in t && NeverDrops(edits, edits[i].slot)
    ensures |TextRecord(t, edits)| == |edits|
    ensures TextRecord(t, edits)[i].was.Some? && TextRecord(t, edits)[j].was.Some?
    ensures edits[i].slot in EditTexts(t, edits)
  {
    var slot := edits[i].slot;
    RecordFollowsEdits(t, edits);
    NeverDropsPrefix(edits, slot, i);
    NeverDropsPrefix(edits, slot, j);
    UndroppedStays(t, edits[..i], slot);
    UndroppedStays(t, edits[..j], slot);
    UndroppedStays(t, edits, slot);
  }

  lemma CommittedRecordIsCoherent(s: Store, items: seq<Item>, chosen: seq<Item>, replace: bool,
                                  defaults: map<string, string>, textOrder: seq<Slot>, buttonOrder: seq<string>)
    requires PickedFrom(chosen, items) && NoRepeat(textOrder)
    requires !InsertsTwice(s.texts, Writes(chosen))
    ensures var p := PlanOf(s, items, chosen, replace, defaults, textOrder, buttonOrder);
      && Coherent(BackupOf(s, p).texts)
      && !ReinsertsTwice(Applied(s, p).texts, BackupOf(s, p).texts)
  {
    var p := PlanOf(s, items, chosen, replace, defaults, textOrder, buttonOrder);
    var edits, entries := p.drops + p.writes, TextRecord(s.texts, p.drops + p.writes);
    RecordFollowsEdits(s.texts, edits);
    forall i, j | 0 <= i < j < |entries| && entries[i].key == entries[j].key
      ensures entries[i].was.Some? && entries[j].was.Some? && entries[i].key in EditTexts(s.texts, edits)
    {
      TwiceEditedIsStored(s, items, chosen, replace, defaults, textOrder, buttonOrder, i, j);
      RecordedTwice(s.texts, edits, i, j);
    }
  }

  // ---- one more edit -----------------------------------------------------------------------------

  lemma TextEditAppended(t: Texts, edits: seq<TextEdit>, e: TextEdit)
    ensures EditTexts(t, edits + [e]) == EditText(EditTexts(t, edits), e)
    ensures TextRecord(t, edits + [e])
         == TextRecord(t, edits) + [Entry(e.slot, if e.slot in t then Lookup(EditTexts(t, edits), e.slot) else None)]
  {
  }

  lemma LookEditAppended(start: Buttons, edits: seq<LookEdit>, e: LookEdit)
    ensures EditLooks(Begin(start), edits + [e]) == EditLook(EditLooks(Begin(start), edits), e)
  {
  }

  // ---- the steps of apply ------------------------------------------------------------------------

  /** Replace mode: delete every stored text the pack does not mention, private ones excepted. */
  method DropUnmentioned(texts: Texts, order: seq<Slot>, items: seq<Item>) returns (now: Texts, record: TextEntries)
    requires NoRepeat(order) && forall slot :: slot in order <==> slot in texts
    ensures now == EditTexts(texts, Drops(order, items))
    ensures record == TextRecord(texts, Drops(order, items))
    ensures forall slot :: Lookup(now, slot) == if Spared(items, slot) then Lookup(texts, slot) else None
  {
    now, record := texts, [];
    for n := 0 to |order|
      invariant now == EditTexts(texts, Drops(order[..n], items))
      invariant record == TextRecord(texts, Drops(order[..n], items))
    {
      var slot := order[n];
      ghost var done := Drops(order[..n], items);
      TakeNext(order, n);
      if !MentionsText(items, slot) && !IsPrivate(slot.key) {
        assert slot !in order[..n];
        DropsAreRare(order[..n], items, slot);
        UneditedTextStays(texts, done, slot);
        TextEditAppended(texts, done, Drop(slot));
        record := record + [Entry(slot, Some(texts[slot]))];
        now := now - {slot};
      }
    }
    TakeAll(order);
    forall slot ensures Lookup(now, slot) == if Spared(items, slot) then Lookup(texts, slot) else None {
      TextAfterDrops(texts, order, items, slot);
    }
  }

  /** The slots inserted while `done` was carried out. */
  ghost predicate AreInserted(inserted: set<Slot>, rows: Texts, done: seq<TextEdit>) {
    forall slot :: slot in inserted <==> slot !in rows && TextEdits(done, slot) >= 1
  }

  /** Write the chosen texts; `rows` were read before, so a second insert of one slot is not noticed. */
  method WriteChosen(rows: Texts, ghost drops: seq<TextEdit>, dropped: Texts, soFar: TextEntries, writes: seq<TextEdit>)
    returns (now: Texts, record: TextEntries, duplicate: bool)
    requires dropped == EditTexts(rows, drops) && soFar == TextRecord(rows, drops)
    requires AllWrites(writes)
    ensures now == EditTexts(rows, drops + writes)
    ensures record == TextRecord(rows, drops + writes)
    ensures duplicate <==> InsertsTwice(rows, writes)
  {
    now, record, duplicate := dropped, soFar, false;
    var inserted: set<Slot> := {};
    assert drops + writes[..0] == drops;
    for n := 0 to |writes|
      invariant now == EditTexts(rows, drops + writes[..n])
      invariant record == TextRecord(rows, drops + writes[..n])
      invariant AreInserted(inserted, rows, writes[..n])
      invariant duplicate <==> InsertsTwice(rows, writes[..n])
    {
      var slot, value := writes[n].slot, writes[n].value;
      assert drops + writes[..n + 1] == (drops + writes[..n]) + [writes[n]] by {
        TakeNext(writes, n);
      }
      TextEditAppended(rows, drops + writes[..n], writes[n]);
      record := record + [Entry(slot, if slot in rows then Lookup(now, slot) else None)];
      if slot in now {
        now := now[slot := now[slot].(value := value)];
      } else {
        now := now[slot := Text(value, None, None)];
      }
      duplicate, inserted := NoteInsert(rows, writes, n, duplicate, inserted);
    }
    TakeAll(writes);
  }

  method NoteInsert(rows: Texts, writes: seq<TextEdit>, n: nat, soFar: bool, before: set<Slot>)
    returns (duplicate: bool, inserted: set<Slot>)
    requires n < |writes|
    requires AreInserted(before, rows, writes[..n]) && (soFar <==> InsertsTwice(rows, writes[..n]))
    ensures AreInserted(inserted, rows, writes[..n + 1]) && (duplicate <==> InsertsTwice(rows, writes[..n + 1]))
  {
    TakeNext(writes, n);
    OneMoreWrite(rows, writes[..n], writes[n]);
    duplicate, inserted := soFar, before;
    var slot := writes[n].slot;
    if slot !in rows {
      duplicate := duplicate || slot in inserted;
      inserted := inserted + {slot};
    }
  }

  lemma OneMoreWrite(rows: Texts, done: seq<TextEdit>, e: TextEdit)
    ensures forall slot :: TextEdits(done + [e], slot) == TextEdits(done, slot) + (if e.slot == slot then 1 else 0)
    ensures InsertsTwice(rows, done + [e])
      <==> InsertsTwice(rows, done) || (e.slot !in rows && TextEdits(done, e.slot) >= 1)
  {
  }

  /** Replace mode: give every customized button the pack does not mention its built-in look. */
  method ResetUnmentioned(buttons: Buttons, order: seq<string>, items: seq<Item>, defaults: map<string, string>)
    returns (b: Bench)
    requires NoRepeat(order) && forall key :: key in order <==> key in buttons
    ensures b == EditLooks(Begin(buttons), Resets(order, items, buttons, defaults))
    ensures b.buttons.Keys == buttons.Keys
    ensures forall key :: key in buttons ==>
      b.buttons[key] == if MentionsButton(items, key) || IsBuiltIn(key, buttons[key].look, defaults) then buttons[key]
                        else buttons[key].(look := Look("", None, None))
  {
    b := Begin(buttons);
    for n := 0 to |order|
      invariant b == EditLooks(Begin(buttons), Resets(order[..n], items, buttons, defaults))
    {
      var key := order[n];
      ghost var done := Resets(order[..n], items, buttons, defaults);
      TakeNext(order, n);
      assert key !in order[..n];
      ResetsAreRare(order[..n], items, buttons, defaults, key);
      UneditedLookStays(buttons, done, key);
      EditsOnlyGrow(buttons, done);
      LookEditAppended(buttons, done, Reset(key));
      var row := b.buttons[key];
      if !MentionsButton(items, key) && Customized(key, row.look, defaults) {
        b := b.(looks := b.looks + [Entry(key, Some(row.look))],
                buttons := b.buttons[key := row.(look := Look("", None, None))]);
      }
    }
    TakeAll(order);
    assert b.buttons.Keys == buttons.Keys by { ButtonAfterResets(buttons, order, items, defaults, ""); }
    forall key | key in buttons
      ensures b.buttons[key] == if MentionsButton(items, key) || IsBuiltIn(key, buttons[key].look, defaults) then
                buttons[key] else buttons[key].(look := Look("", None, None))
    {
      ButtonAfterResets(buttons, order, items, defaults, key);
      BuiltInIffNotCustomized(key, buttons[key].look, defaults);
    }
  }

  /** ensure_button: an absent button is created blank and remembered. */
  method EnsureButton(b: Bench, key: string) returns (ready: Bench)
    ensures ready == Ensured(b, key)
  {
    ready := b;
    if key !in b.buttons {
      ready := Bench(b.buttons[key := NEW_BUTTON], b.looks, b.created + {key});
    }
  }

  method DressButton(before: Bench, key: string, paint: Paint) returns (b: Bench)
    ensures b == EditLook(before, Dress(key, paint))
  {
    b := before;
    if key !in b.created {
      b := b.(looks := b.looks + [Entry(key, OldLook(b.buttons, key))]);
    }
    b := EnsureButton(b, key);
    var look := b.buttons[key].look;
    if paint.text.Some? {
      look := look.(text := paint.text.value);
    }
    if paint.style.Some? {
      look := look.(style := Some(if paint.style.value == "none" then "" else paint.style.value));
    }
    if paint.icon.Some? {
      look := look.(icon := paint.icon);
    }
    b := b.(buttons := b.buttons[key := b.buttons[key].(look := look)]);
  }

  method DressChosen(start: Bench, ghost buttons: Buttons, ghost resets: seq<LookEdit>, dresses: seq<LookEdit>)
    returns (b: Bench)
    requires start == EditLooks(Begin(buttons), resets)
    requires AllDresses(dresses)
    ensures b == EditLooks(Begin(buttons), resets + dresses)
  {
    b := start;
    assert resets + dresses[..0] == resets;
    for n := 0 to |dresses|
      invariant b == EditLooks(Begin(buttons), resets + dresses[..n])
    {
      assert resets + dresses[..n + 1] == (resets + dresses[..n]) + [dresses[n]] by {
        TakeNext(dresses, n);
      }
      LookEditAppended(buttons, resets + dresses[..n], dresses[n]);
      b := DressButton(b, dresses[n].key, dresses[n].paint);
    }
    TakeAll(dresses);
  }

  method PlaceButtons(start: Bench, layout: Layout) returns (b: Bench)
    ensures b == Placed(start, Some(layout))
  {
    var placed := Flat(layout.rows);
    b := start;
    for n := 0 to |placed|
      invariant b == EnsuredAll(start, placed[..n])
    {
      TakeNext(placed, n);
      b := EnsureButton(b, placed[n]);
    }
    TakeAll(placed);
    b := b.(buttons := map key | key in b.buttons ::
      b.buttons[key].(spot := PlacedSpot(b.buttons[key].spot, key, layout)));
  }

  lemma {:induction false} ResetsAreRecorded(buttons: Buttons, order: seq<string>, items: seq<Item>,
                                             defaults: map<string, string>)
    ensures |EditLooks(Begin(buttons), Resets(order, items, buttons, defaults)).looks|
         == |Resets(order, items, buttons, defaults)|
    ensures EditLooks(Begin(buttons), Resets(order, items, buttons, defaults)).created == {}
    ensures EditLooks(Begin(buttons), Resets(order, items, buttons, defaults)).buttons.Keys == buttons.Keys
  {
    if order != [] {
      var before := order[..|order| - 1];
      ResetsAreRecorded(buttons, before, items, defaults);
      LookEditAppended(buttons, Resets(before, items, buttons, defaults), Reset(order[|order| - 1]));
    }
  }

  lemma KeptStaysCoherent(imports: seq<Record>, record: Record, pruned: bool)
    requires AllCoherent(imports) && Coherent(record.backup.texts)
    ensures AllCoherent(Kept(imports + [record], pruned))
  {
  }

  // ---- the steps of undo -------------------------------------------------------------------------

  /** Rows inserted while the first `n` entries were put back. */
  ghost predicate ArePutBack(inserted: set<Slot>, stored: Texts, entries: TextEntries, n: nat)
    requires n <= |entries|
  {
    && (forall i :: 0 <= i < n && entries[i].key !in stored && entries[i].was.Some? ==> entries[i].key in inserted)
    && (forall slot :: slot in inserted ==> slot !in stored && exists i :: 0 <= i < n && entries[i].key == slot)
  }

  /** Each entry looks its row up among the rows stored before the undo; a missing one is inserted. */
  method PutTextsBack(stored: Texts, entries: TextEntries) returns (now: Texts, duplicate: bool)
    requires Coherent(entries)
    ensures now == PutBack(stored, entries)
    ensures duplicate <==> ReinsertsTwice(stored, entries)
  {
    now, duplicate := stored, false;
    var inserted: set<Slot> := {};
    for n := 0 to |entries|
      invariant now == PutBack(stored, entries[..n])
      invariant ArePutBack(inserted, stored, entries, n)
      invariant duplicate <==> RepeatsWithin(stored, entries, n)
    {
      var slot, was := entries[n].key, entries[n].was;
      assert PutBack(stored, entries[..n + 1]) == Put(now, entries[n]) by {
        TakeNext(entries, n);
      }
      if was.None? {
        now := now - {slot};
      } else {
        now := now[slot := was.value];
      }
      duplicate, inserted := NoteReinsert(stored, entries, n, duplicate, inserted);
    }
    TakeAll(entries);
  }

  method NoteReinsert(stored: Texts, entries: TextEntries, n: nat, soFar: bool, before: set<Slot>)
    returns (duplicate: bool, inserted: set<Slot>)
    requires n < |entries| && Coherent(entries) && ArePutBack(before, stored, entries, n)
    requires soFar <==> RepeatsWithin(stored, entries, n)
    ensures ArePutBack(inserted, stored, entries, n + 1)
    ensures duplicate <==> RepeatsWithin(stored, entries, n + 1)
  {
    RepeatedReinsert(stored, entries, n, before);
    duplicate, inserted := soFar, before;
    if entries[n].was.Some? && entries[n].key !in stored {
      duplicate := duplicate || entries[n].key in inserted;
      inserted := inserted + {entries[n].key};
    }
  }

  lemma RepeatedReinsert(stored: Texts, entries: TextEntries, n: nat, inserted: set<Slot>)
    requires n < |entries| && Coherent(entries) && ArePutBack(inserted, stored, entries, n)
    ensures RepeatsWithin(stored, entries, n + 1)
      <==> (RepeatsWithin(stored, entries, n)
            || (entries[n].was.Some? && entries[n].key !in stored && entries[n].key in inserted))
  {
    if RepeatsWithin(stored, entries, n) {
      var i, j :| 0 <= i < j < n && SameMissingRow(stored, entries, i, j);
      assert SameMissingRow(stored, entries, i, j);
    }
    if entries[n].was.Some? && entries[n].key !in stored && entries[n].key in inserted {
      var i :| 0 <= i < n && entries[i].key == entries[n].key;
      assert SameMissingRow(stored, entries, i, n);
    }
    if RepeatsWithin(stored, entries, n + 1) && !RepeatsWithin(stored, entries, n) {
      var i, j :| 0 <= i < j < n + 1 && SameMissingRow(stored, entries, i, j);
      assert j == n;
    }
  }

  method PutLooksBack(stored: Buttons, entries: LookEntries) returns (now: Buttons)
    ensures now == PutLooks(stored, entries)
  {
    now := stored;
    for n := 0 to |entries|
      invariant now == PutLooks(stored, entries[..n])
    {
      TakeNext(entries, n);
      var key, was := entries[n].key, entries[n].was;
      if key in now && was.Some? {
        now := now[key := now[key].(look := was.value)];
      }
    }
    TakeAll(entries);
  }

  // ---- what the two transactions do to the tables ---------------------------------------------

  datatype Tables = Tables(rows: Store, imports: seq<Record>, nextId: int)

  /**
   * One call of `apply`: the parsed pack, the ticked ids, the rows its preview compared the pack with,
   * the order in which the transaction read the tables, and whether pruning worked.
   */
  datatype Request = Request(items: seq<Item>, wanted: Option<set<string>>, replace: bool, seen: Store,
                             sameLayout: bool, textOrder: seq<Slot>, buttonOrder: seq<string>, pruned: bool)

  /** Every stored row is read once. */
  ghost predicate ReadsTables(t: Tables, r: Request) {
    && NoRepeat(r.textOrder) && (forall slot :: slot in r.textOrder <==> slot in t.rows.texts)
    && NoRepeat(r.buttonOrder) && (forall key :: key in r.buttonOrder <==> key in t.rows.buttons)
  }

  function Picked(r: Request): seq<Item> {
    Chosen(r.items, r.wanted, r.seen, r.sameLayout)
  }

  function PlanFor(t: Tables, r: Request, defaults: map<string, string>): Plan {
    PlanOf(t.rows, r.items, Picked(r), r.replace, defaults, r.textOrder, r.buttonOrder)
  }

  function WithImport(t: Tables, r: Request, rows: Store, backup: Backup): Tables {
    Tables(rows, Kept(t.imports + [Record(t.nextId, r.replace, backup, false)], r.pruned), t.nextId + 1)
  }

  function Commit(t: Tables, r: Request, p: Plan): Tables {
    WithImport(t, r, Applied(t.rows, p), BackupOf(t.rows, p))
  }

  function Report(r: Request, p: Plan, importId: int): ApplyResult {
    Committed(|Picked(r)|, |p.writes|, |p.dresses|, p.layout.Some?, |p.drops| + |p.resets|, importId)
  }

  ghost function Outcome(t: Tables, r: Request, p: Plan): (Tables, ApplyResult) {
    if InsertsTwice(t.rows.texts, p.writes) then (t, DuplicateRow) else (Commit(t, r, p), Report(r, p, t.nextId))
  }

  ghost function AfterApply(t: Tables, r: Request, defaults: map<string, string>): (Tables, ApplyResult) {
    if Picked(r) == [] && !r.replace then (t, NothingToApply) else Outcome(t, r, PlanFor(t, r, defaults))
  }

  ghost function AfterUndo(t: Tables): (Tables, UndoResult) {
    var n := |t.imports| - 1;
    if t.imports == [] || t.imports[n].restored then (t, NothingToUndo)
    else if ReinsertsTwice(t.rows.texts, t.imports[n].backup.texts) then (t, UndoDuplicateRow)
    else
      (t.(rows := Undone(t.rows, t.imports[n].backup), imports := t.imports[n := t.imports[n].(restored := true)]),
       PutBackImport(t.imports[n].id))
  }

  lemma ApplyStaysCoherent(t: Tables, r: Request, defaults: map<string, string>)
    requires AllCoherent(t.imports) && ReadsTables(t, r)
    ensures AllCoherent(AfterApply(t, r, defaults).0.imports)
  {
    var p := PlanFor(t, r, defaults);
    if !InsertsTwice(t.rows.texts, p.writes) {
      CommittedRecordIsCoherent(t.rows, r.items, Picked(r), r.replace, defaults, r.textOrder, r.buttonOrder);
      KeptStaysCoherent(t.imports, Record(t.nextId, r.replace, BackupOf(t.rows, p), false), r.pruned);
    }
  }

  /** The newest record survives pruning, and undo works from it. */
  lemma UndoReadsTheNewRecord(t: Tables, r: Request, p: Plan)
    requires !ReinsertsTwice(Applied(t.rows, p).texts, BackupOf(t.rows, p).texts)
    ensures AfterUndo(Commit(t, r, p)).1 == PutBackImport(t.nextId)
    ensures AfterUndo(Commit(t, r, p)).0.rows == Undone(Applied(t.rows, p), BackupOf(t.rows, p))
    ensures AfterUndo(AfterUndo(Commit(t, r, p)).0) == (AfterUndo(Commit(t, r, p)).0, NothingToUndo)
  {
  }

  lemma CommittedMeansPlan(t: Tables, r: Request, defaults: map<string, string>)
    requires AfterApply(t, r, defaults).1.Committed?
    ensures AfterApply(t, r, defaults).0 == Commit(t, r, PlanFor(t, r, defaults))
    ensures !InsertsTwice(t.rows.texts, Writes(Picked(r)))
  {
  }

  /**
   * An apply that committed is undone by the next undo, exactly; that undo never fails, and the one
   * after it finds nothing to undo.
   */
  lemma UndoInvertsApply(t: Tables, r: Request, defaults: map<string, string>)
    requires ReadsTables(t, r) && AfterApply(t, r, defaults).1.Committed?
    requires NothingTwice(t.rows, PlanFor(t, r, defaults))
    ensures var undone := AfterUndo(AfterApply(t, r, defaults).0);
      && undone.0.rows == t.rows
      && undone.1 == PutBackImport(t.nextId)
      && AfterUndo(undone.0) == (undone.0, NothingToUndo)
  {
    CommittedMeansPlan(t, r, defaults);
    CommittedRecordIsCoherent(t.rows, r.items, Picked(r), r.replace, defaults, r.textOrder, r.buttonOrder);
    UndoReadsTheNewRecord(t, r, PlanFor(t, r, defaults));
    UndoRestoresEverything(t.rows, r.items, Picked(r), r.replace, defaults, r.textOrder, r.buttonOrder);
  }

  /** When the preview saw the rows the apply changed, the undo is exact if and only if nothing was chosen twice. */
  lemma UndoInvertsApplyIff(t: Tables, r: Request, defaults: map<string, string>)
    requires ReadsTables(t, r) && AfterApply(t, r, defaults).1.Committed? && r.seen == t.rows
    ensures AfterUndo(AfterApply(t, r, defaults).0).0.rows == t.rows <==> NothingTwice(t.rows, PlanFor(t, r, defaults))
  {
    CommittedMeansPlan(t, r, defaults);
    CommittedRecordIsCoherent(t.rows, r.items, Picked(r), r.replace, defaults, r.textOrder, r.buttonOrder);
    UndoReadsTheNewRecord(t, r, PlanFor(t, r, defaults));
    UndoIsExactIffNothingTwice(t.rows, r.items, Picked(r), r.sameLayout, r.replace, defaults, r.textOrder,
                               r.buttonOrder);
  }

  /** What a session hands over, from the rows it made, the snapshot it kept and the resets it counted. */
  lemma SessionOutcome(t: Tables, r: Request, p: Plan, rows: Store, backup: Backup, reset: nat)
    requires rows == Applied(t.rows, p) && backup == BackupOf(t.rows, p)
    requires reset == |p.drops| + |p.resets|
    ensures Outcome(t, r, p) ==
      if InsertsTwice(t.rows.texts, p.writes) then (t, DuplicateRow)
      else (WithImport(t, r, rows, backup),
            Committed(|Picked(r)|, |p.writes|, |p.dresses|, p.layout.Some?, reset, t.nextId))
  {
  }

  /** A committed apply adds one record under the next id, with what it replaced; of more than ten records only
      the newest ten stay, unless the pruning failed. */
  lemma CommittedKeepsTen(t: Tables, r: Request, defaults: map<string, string>)
    requires AfterApply(t, r, defaults).1.Committed?
    ensures var now, p := AfterApply(t, r, defaults).0, PlanFor(t, r, defaults);
      var all := t.imports + [Record(t.nextId, r.replace, BackupOf(t.rows, p), false)];
      && now.nextId == t.nextId + 1 && AfterApply(t, r, defaults).1.importId == t.nextId
      && (if r.pruned && |all| > 10 then |now.imports| == 10 && all[|all| - 10..] == now.imports else now.imports == all)
  {
  }

  /** An apply that finds nothing to do records nothing: the undo after it is the undo of the import before. */
  lemma NothingAppliedLeavesTheUndo(t: Tables, r: Request, defaults: map<string, string>)
    ensures AfterApply(t, r, defaults).1 == NothingToApply <==> Picked(r) == [] && !r.replace
    ensures AfterApply(t, r, defaults).1 == NothingToApply ==>
      AfterUndo(AfterApply(t, r, defaults).0) == AfterUndo(t)
  {
  }

  /** The session of one apply: it works on copies and hands over what to commit. */
  method Session(t: Tables, r: Request, defaults: map<string, string>) returns (after: Tables, result: ApplyResult)
    requires ReadsTables(t, r)
    ensures (after, result) == Outcome(t, r, PlanFor(t, r, defaults))
  {
    ghost var p := PlanFor(t, r, defaults);
    var texts, record, b, reset := ResetTheRest(t, r, defaults);
    var chosen := Picked(r);
    var writes, dresses, layout := Writes(chosen), Dresses(chosen), ChosenLayout(chosen);
    WritesOnlyWrite(chosen);
    DressesOnlyDress(chosen);
    var rows, backup, duplicate := WriteTheChosen(t.rows, p.drops, p.resets, texts, record, b, writes, dresses, layout);
    SessionOutcome(t, r, p, rows, backup, reset);
    if duplicate {
      return t, DuplicateRow;
    }
    after := WithImport(t, r, rows, backup);
    result := Committed(|chosen|, |writes|, |dresses|, layout.Some?, reset, t.nextId);
  }

  method ResetTheRest(t: Tables, r: Request, defaults: map<string, string>)
    returns (texts: Texts, record: TextEntries, b: Bench, reset: nat)
    requires ReadsTables(t, r)
    ensures texts == EditTexts(t.rows.texts, PlanFor(t, r, defaults).drops)
    ensures record == TextRecord(t.rows.texts, PlanFor(t, r, defaults).drops)
    ensures b == EditLooks(Begin(t.rows.buttons), PlanFor(t, r, defaults).resets)
    ensures reset == |PlanFor(t, r, defaults).drops| + |PlanFor(t, r, defaults).resets|
  {
    texts, record, b := t.rows.texts, [], Begin(t.rows.buttons);
    if r.replace {
      texts, record := DropUnmentioned(t.rows.texts, r.textOrder, r.items);
      b := ResetUnmentioned(t.rows.buttons, r.buttonOrder, r.items, defaults);
      RecordFollowsEdits(t.rows.texts, Drops(r.textOrder, r.items));
      ResetsAreRecorded(t.rows.buttons, r.buttonOrder, r.items, defaults);
    }
    reset := |record| + |b.looks|;
  }

  method WriteTheChosen(s: Store, ghost drops: seq<TextEdit>, ghost resets: seq<LookEdit>,
                        dropped: Texts, soFar: TextEntries, bench: Bench,
                        writes: seq<TextEdit>, dresses: seq<LookEdit>, layout: Option<Layout>)
    returns (rows: Store, backup: Backup, duplicate: bool)
    requires dropped == EditTexts(s.texts, drops) && soFar == TextRecord(s.texts, drops)
    requires bench == EditLooks(Begin(s.buttons), resets)
    requires AllWrites(writes)
    requires AllDresses(dresses)
    ensures rows == Applied(s, Plan(drops, writes, resets, dresses, layout))
    ensures backup == BackupOf(s, Plan(drops, writes, resets, dresses, layout))
    ensures duplicate <==> InsertsTwice(s.texts, writes)
  {
    var texts, record;
    texts, record, duplicate := WriteChosen(s.texts, drops, dropped, soFar, writes);
    var spots := if layout.Some? then Some(Spots(s.buttons)) else None;
    var b := DressChosen(bench, s.buttons, resets, dresses);
    if layout.Some? {
      b := PlaceButtons(b, layout.value);
    }
    rows, backup := Store(texts, b.buttons), Backup(record, b.looks, b.created, spots);
  }

  // ---- the tables -----------------------------------------------------------------------------------

  class ThemeTables {
    const defaults: map<string, string>
    var texts: Texts
    var buttons: Buttons
    var imports: seq<Record>
    var nextId: int

    ghost predicate Valid()
      reads this
    {
      AllCoherent(imports)
    }

    function State(): Tables
      reads this
    {
      Tables(Store(texts, buttons), imports, nextId)
    }

    constructor (defaults: map<string, string>)
      ensures Valid() && State() == Tables(Store(map[], map[]), [], 1) && this.defaults == defaults
    {
      this.defaults := defaults;
      texts, buttons, imports, nextId := map[], map[], [], 1;
    }

    method Apply(r: Request) returns (result: ApplyResult)
      requires Valid() && ReadsTables(State(), r)
      modifies this`texts, this`buttons, this`imports, this`nextId
      ensures Valid()
      ensures (State(), result) == AfterApply(old(State()), r, defaults)
    {
      var chosen := Picked(r);
      if chosen == [] && !r.replace {
        return NothingToApply;
      }
      ApplyStaysCoherent(State(), r, defaults);
      var after;
      after, result := Session(State(), r, defaults);
      if result.Committed? {
        texts, buttons := after.rows.texts, after.rows.buttons;
        imports, nextId := after.imports, after.nextId;
      }
    }

    method UndoLastImport() returns (result: UndoResult)
      requires Valid()
      modifies this`texts, this`buttons, this`imports
      ensures Valid()
      ensures (State(), result) == AfterUndo(old(State()))
    {
      if |imports| == 0 || imports[|imports| - 1].restored {
        return NothingToUndo;
      }
      var last := imports[|imports| - 1];
      var newTexts, duplicate := PutTextsBack(texts, last.backup.texts);
      var newButtons := PutLooksBack(buttons, last.backup.looks);
      newButtons := PutSpots(newButtons, last.backup.layout) - last.backup.created;
      if duplicate {
        return UndoDuplicateRow;
      }
      texts, buttons := newTexts, newButtons;
      imports := imports[|imports| - 1 := last.(restored := true)];
      return PutBackImport(last.id);
    }
  }
}
