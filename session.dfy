/**
 * One browser session of the CRM page (app.py main()). The session holds the
 * contacts file, the table loaded at the top of the current run, the key of
 * the log-call form, and the per-row edit flags kept in the session state
 * under "edit_<position>". Every action that ends with a rerun reloads the
 * table from the file, as the next run of main() does.
 */
module Crm {
  import opened Text
  import opened Timestamps
  import opened Contacts
  import opened Search

  /** The session-state key of row `idx`'s edit flag. */
  function EditKey(idx: nat): (k: string)
    ensures |k| > 5 && k[..5] == "edit_"
    ensures AllDigits(k[5..]) && ValueOf(k[5..]) == idx
    ensures |k| > 6 ==> k[5] != '0'
  {
    var k := "edit_" + Decimal(idx);
    assert k[5..] == Decimal(idx);
    k
  }

  /** Different rows never share an edit-flag key. */
  lemma EditKeyInjective(i: nat, j: nat)
    requires EditKey(i) == EditKey(j)
    ensures i == j
  {
  }

  /** `m.get(key, default)`. */
  function Get(m: map<string, bool>, key: string, default: bool): bool {
    if key in m then m[key] else default
  }

  /** Row `idx` is in edit mode: its flag, read with False as the default. */
  predicate IsEditing(flags: map<string, bool>, idx: nat): (r: bool)
    ensures EditKey(idx) !in flags ==> !r
    ensures EditKey(idx) in flags ==> r == flags[EditKey(idx)]
  {
    Get(flags, EditKey(idx), false)
  }

  /** Setting one row's flag changes that row's mode and no other row's. */
  lemma {:induction false} SetFlagIsLocal(flags: map<string, bool>, idx: nat, v: bool, j: nat)
    ensures IsEditing(flags[EditKey(idx) := v], idx) == v
    ensures j != idx ==> IsEditing(flags[EditKey(idx) := v], j) == IsEditing(flags, j)
  {
    if j != idx && EditKey(j) == EditKey(idx) {
      EditKeyInjective(j, idx);
    }
  }

  /** What the page draws for one row of the filtered view. */
  datatype RowView = RowView(position: nat, contact: Contact, editing: bool)

  /** A row of the view, drawn in the mode its flag selects. */
  function Draw(flags: map<string, bool>, e: Entry): RowView {
    RowView(e.position, e.row, IsEditing(flags, e.position))
  }

  /** The loop over the view's rows: one drawn row per entry, in view order. */
  method DrawRows(flags: map<string, bool>, view: seq<Entry>) returns (shown: seq<RowView>)
    ensures |shown| == |view|
    ensures forall k :: 0 <= k < |shown| ==> shown[k] == Draw(flags, view[k])
  {
    shown := [];
    var k := 0;
    while k < |view|
      invariant 0 <= k <= |view|
      invariant |shown| == k
      invariant forall j :: 0 <= j < k ==> shown[j] == Draw(flags, view[j])
    {
      shown := shown + [Draw(flags, view[k])];
      k := k + 1;
    }
  }

  class Session {
    /** contacts_data.json */
    var storage: Storage
    /** The table loaded at the top of the current run (app.py line 31). */
    var table: seq<Contact>
    /** st.session_state.form_key: names the log-call form, so a new key gives an empty form. */
    var formKey: nat
    /** st.session_state entries "edit_<position>". */
    var flags: map<string, bool>

    /** Between runs the table in memory is what the file holds. */
    ghost predicate Valid()
      reads this
    {
      table == Load(storage)
    }

    /** A fresh session over whatever the file holds. */
    constructor (storage: Storage)
      ensures Valid() && this.storage == storage && table == Load(storage)
      ensures formKey == 0 && flags == map[]
    {
      this.storage := storage;
      table := Load(storage);
      formKey := 0;
      flags := map[];
    }

    /** The page is run again from the top: the table is reloaded from the file. */
    method Rerun()
      modifies this
      ensures Valid() && table == Load(storage)
      ensures storage == old(storage) && formKey == old(formKey) && flags == old(flags)
    {
      table := Load(storage);
    }

    /**
     * The log-call form. Only a submission with Business and Name filled in
     * appends a record, stamped with `now`, to the table loaded for this run,
     * saves it and moves to a new empty form; anything else changes nothing.
     */
    method LogCall(submitted: bool, form: Form, now: Timestamp) returns (added: bool)
      requires Timestamps.Valid(now)
      requires Valid()
      modifies this
      ensures Valid()
      ensures added <==> submitted && Accepted(form)
      ensures added ==> var t := Append(old(table), NewContact(form, now));
        storage == Stored(t) && table == t && formKey == old(formKey) + 1
      ensures !added ==> storage == old(storage) && table == old(table) && formKey == old(formKey)
      ensures flags == old(flags)
    {
      added := submitted && Accepted(form);
      if added {
        var contact := NewContact(form, now);
        if |table| == 0 {
          table := [contact];
        } else {
          table := table + [contact];
        }
        storage := Stored(table);
        formKey := formKey + 1;
        table := Load(storage);
      }
    }

    /** Clear All Data: the file is removed, so the next load gives an empty table. */
    method ClearAll()
      requires Valid()
      requires |table| > 0
      modifies this
      ensures Valid()
      ensures storage == Missing && table == []
      ensures formKey == old(formKey) && flags == old(flags)
    {
      storage := Missing;
      table := Load(storage);
    }

    /**
     * The edit button of row `idx`: that row switches to edit mode. The button
     * is drawn only for a row in view mode.
     */
    method StartEdit(idx: nat)
      requires Valid()
      requires idx < |table|
      requires !IsEditing(flags, idx)
      modifies this
      ensures Valid()
      ensures flags == old(flags)[EditKey(idx) := true]
      ensures IsEditing(flags, idx)
      ensures forall j: nat :: j != idx ==> IsEditing(flags, j) == IsEditing(old(flags), j)
      ensures storage == old(storage) && table == Load(storage) && formKey == old(formKey)
    {
      flags := flags[EditKey(idx) := true];
      forall j: nat | j != idx ensures IsEditing(flags, j) == IsEditing(old(flags), j) {
        SetFlagIsLocal(old(flags), idx, true, j);
      }
      table := Load(storage);
    }

    /**
     * Cancel on row `idx`'s edit form: back to viewing, nothing saved. The
     * form is drawn only for a row in edit mode.
     */
    method CancelEdit(idx: nat)
      requires Valid()
      requires idx < |table|
      requires IsEditing(flags, idx)
      modifies this
      ensures Valid()
      ensures flags == old(flags)[EditKey(idx) := false]
      ensures !IsEditing(flags, idx)
      ensures forall j: nat :: j != idx ==> IsEditing(flags, j) == IsEditing(old(flags), j)
      ensures storage == old(storage) && table == Load(storage) && formKey == old(formKey)
    {
      flags := flags[EditKey(idx) := false];
      forall j: nat | j != idx ensures IsEditing(flags, j) == IsEditing(old(flags), j) {
        SetFlagIsLocal(old(flags), idx, false, j);
      }
      table := Load(storage);
    }

    /**
     * Save Changes on row `idx`: the file is loaded afresh, the seven edited
     * columns of row `idx` are overwritten one by one, the result is saved and
     * the row returns to viewing. The button sits in the row's edit form, so
     * the row is in edit mode.
     */
    method SaveChanges(idx: nat, form: Form)
      requires idx < |Load(storage)|
      requires Valid()
      requires IsEditing(flags, idx)
      modifies this
      ensures Valid()
      ensures storage == Stored(EditRow(old(Load(storage)), idx, form))
      ensures |Load(storage)| == |old(Load(storage))|
      ensures flags == old(flags)[EditKey(idx) := false]
      ensures forall j: nat :: j != idx ==> IsEditing(flags, j) == IsEditing(old(flags), j)
      ensures table == Load(storage) && formKey == old(formKey)
    {
      var original := Load(storage);
      original := original[idx := original[idx].(business := form.business)];
      original := original[idx := original[idx].(name := form.name)];
      original := original[idx := original[idx].(number := form.number)];
      original := original[idx := original[idx].(email := form.email)];
      original := original[idx := original[idx].(location := form.location)];
      original := original[idx := original[idx].(industry := form.industry)];
      original := original[idx := original[idx].(callNotes := form.callNotes)];
      storage := Stored(original);
      flags := flags[EditKey(idx) := false];
      forall j: nat | j != idx ensures IsEditing(flags, j) == IsEditing(old(flags), j) {
        SetFlagIsLocal(old(flags), idx, false, j);
      }
      table := Load(storage);
    }

    /**
     * Delete on row `idx`: the file is loaded afresh, the row is dropped, the
     * rest renumbered and saved. The button is drawn only for a row in view
     * mode. The edit flags are keyed by position and are left as they were.
     */
    method Delete(idx: nat)
      requires idx < |Load(storage)|
      requires Valid()
      requires !IsEditing(flags, idx)
      modifies this
      ensures Valid()
      ensures storage == Stored(DeleteAt(old(Load(storage)), idx))
      ensures table == Load(storage)
      ensures flags == old(flags) && formKey == old(formKey)
    {
      var original := Load(storage);
      original := original[..idx] + original[idx + 1..];
      storage := Stored(original);
      table := Load(storage);
    }

    /**
     * The contact list of one run: nothing when the table is empty; otherwise
     * one entry per row of the filtered view, in view order, each drawn in
     * edit mode exactly when its flag is set, and the Total Contacts count,
     * which is the size of the filtered view. On an empty table the page
     * shows an info message and no Total Contacts metric at all; `total` is
     * then 0 and stands for that absent metric.
     */
    method Render(term: string) returns (shown: seq<RowView>, total: nat)
      ensures var view := Filter(table, term);
        && |shown| == |view|
        && (forall k :: 0 <= k < |shown| ==> shown[k] == Draw(flags, view[k]))
      ensures total == |shown| && total <= |table|
    {
      if |table| == 0 {
        FilterEmptyTable(term);
        return [], 0;
      }
      shown := DrawRows(flags, Filter(table, term));
      total := |shown|;
    }
  }
}
