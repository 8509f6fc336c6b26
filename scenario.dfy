/**
 * A client of the session: what a caller can conclude from the method
 * contracts alone, on the add-then-delete walk-through and on an edit.
 */
module Scenario {
  import opened Wrappers
  import opened Timestamps
  import opened Contacts
  import opened Search
  import opened Crm

  method AddEditDelete() {
    var now := Timestamp(2024, 3, 5, 9, 7);
    var session := new Session(Missing);
    assert session.table == [];

    var noBusiness := Form("", "Jo", "", "", "", "", "");
    var added := session.LogCall(true, noBusiness, now);
    assert !added && session.table == [];

    var acme := Form("Acme", "Jo", "555-0100", "jo@acme.test", "Leeds", "Widgets", "");
    added := session.LogCall(true, acme, now);
    assert added && |session.table| == 1 && session.table[0].business == "Acme";
    assert ParseDateAdded(session.table[0].dateAdded) == Some(now);
    assert session.formKey == 1;

    session.StartEdit(0);
    assert IsEditing(session.flags, 0);
    var edited := acme.(callNotes := "call back Friday");
    session.SaveChanges(0, edited);
    assert !IsEditing(session.flags, 0);
    assert |session.table| == 1 && session.table[0].callNotes == "call back Friday";
    assert session.table[0].dateAdded == FormatDateAdded(now);

    session.Delete(0);
    assert session.table == [];
  }
}
