/**
 * The contact table: one record per logged call, eight text columns, held
 * in the order the calls were logged. Positions 0, 1, ... are the row
 * labels the application uses to address a row (the table is rebuilt with a
 * fresh 0-based index on every load, add and delete). The backing JSON file
 * is modelled as one value that is replaced wholesale on every save.
 */
module Contacts {
  import opened Wrappers
  import opened Timestamps

  /** One logged call. Date Added is set when the call is logged. */
  datatype Contact = Contact(
    business: string,
    name: string,
    number: string,
    email: string,
    location: string,
    industry: string,
    callNotes: string,
    dateAdded: string)

  /** The seven values a user types, in the log-call form or the edit form. */
  datatype Form = Form(
    business: string,
    name: string,
    number: string,
    email: string,
    location: string,
    industry: string,
    callNotes: string)

  /** The canonical column names, in table order (app.py line 16). */
  const Columns: seq<string> :=
    ["Business", "Name", "Number", "Email", "Location", "Industry", "Call Notes", "Date Added"]

  /**
   * A record's value under a column name, as `row['Business']` reads it;
   * None for a name that is not one of the canonical columns.
   */
  function Column(c: Contact, name: string): (v: Option<string>)
    ensures v.Some? <==> name in Columns
  {
    if name == "Business" then Some(c.business)
    else if name == "Name" then Some(c.name)
    else if name == "Number" then Some(c.number)
    else if name == "Email" then Some(c.email)
    else if name == "Location" then Some(c.location)
    else if name == "Industry" then Some(c.industry)
    else if name == "Call Notes" then Some(c.callNotes)
    else if name == "Date Added" then Some(c.dateAdded)
    else None
  }

  /** A record's values in column order: what the search reads, column by column. */
  function Fields(c: Contact): (fs: seq<string>)
    ensures |fs| == |Columns|
  {
    [c.business, c.name, c.number, c.email, c.location, c.industry, c.callNotes, c.dateAdded]
  }

  /** The k-th value of a record is the value under the k-th canonical column name. */
  lemma FieldsFollowColumns(c: Contact)
    ensures forall k :: 0 <= k < |Columns| ==> Column(c, Columns[k]) == Some(Fields(c)[k])
  {
    var fs := Fields(c);
    assert Column(c, Columns[0]) == Some(fs[0]) && Column(c, Columns[1]) == Some(fs[1]);
    assert Column(c, Columns[2]) == Some(fs[2]) && Column(c, Columns[3]) == Some(fs[3]);
    assert Column(c, Columns[4]) == Some(fs[4]) && Column(c, Columns[5]) == Some(fs[5]);
    assert Column(c, Columns[6]) == Some(fs[6]) && Column(c, Columns[7]) == Some(fs[7]);
  }

  /** The editable part of a record, as the edit form is pre-filled with it. */
  function FormOf(c: Contact): Form {
    Form(c.business, c.name, c.number, c.email, c.location, c.industry, c.callNotes)
  }

  // ---------------------------------------------------------------------------
  // Storage

  /** The contacts file: absent, or holding a list of records. */
  datatype Storage = Missing | Stored(rows: seq<Contact>)

  /** load_data: the stored rows, or an empty table when there is no file. */
  function Load(s: Storage): (t: seq<Contact>)
    ensures s.Missing? ==> t == []
    ensures s.Stored? ==> t == s.rows
  {
    match s
    case Missing => []
    case Stored(rows) => rows
  }

  // ---------------------------------------------------------------------------
  // Log a call

  /** Python's truth value of a string: true exactly for a non-empty one. */
  predicate Truthy(s: string) {
    s != ""
  }

  /** The guard on the log-call form: Business and Name must both be filled in. */
  predicate Accepted(f: Form): (r: bool)
    ensures r <==> |f.business| > 0 && |f.name| > 0
  {
    Truthy(f.business) && Truthy(f.name)
  }

  /** The record a successful submission creates, stamped with the current time. */
  function NewContact(f: Form, now: Timestamp): (c: Contact)
    requires Valid(now)
    ensures FormOf(c) == f
    ensures ParseDateAdded(c.dateAdded) == Some(now)
  {
    ParseFormatRoundTrip(now);
    Contact(f.business, f.name, f.number, f.email, f.location, f.industry, f.callNotes,
            FormatDateAdded(now))
  }

  /**
   * Appending one record: a fresh one-row table when the table is empty,
   * otherwise a concatenation with renumbered positions.
   */
  function Append(table: seq<Contact>, c: Contact): (r: seq<Contact>)
    ensures |r| == |table| + 1
    ensures r[..|table|] == table
    ensures r[|table|] == c
  {
    if |table| == 0 then [c] else table + [c]
  }

  // ---------------------------------------------------------------------------
  // Edit

  /** A record with its seven editable fields replaced; Date Added is kept. */
  function WithForm(c: Contact, f: Form): Contact {
    c.(business := f.business, name := f.name, number := f.number, email := f.email,
       location := f.location, industry := f.industry, callNotes := f.callNotes)
  }

  /** Save Changes on row `idx`, stated on values. */
  function EditRow(table: seq<Contact>, idx: nat, f: Form): (r: seq<Contact>)
    requires idx < |table|
    ensures |r| == |table|
    ensures FormOf(r[idx]) == f
    ensures r[idx].dateAdded == table[idx].dateAdded
    ensures forall i :: 0 <= i < |r| && i != idx ==> r[i] == table[i]
  {
    table[idx := WithForm(table[idx], f)]
  }

  /** Saving the pre-filled edit form without changing anything leaves the table as it was. */
  lemma EditUnchangedFormIsNoop(table: seq<Contact>, idx: nat)
    requires idx < |table|
    ensures EditRow(table, idx, FormOf(table[idx])) == table
  {
  }

  // ---------------------------------------------------------------------------
  // Delete

  /** Drop row `idx` and renumber: later rows move up one position. */
  function DeleteAt(table: seq<Contact>, idx: nat): (r: seq<Contact>)
    requires idx < |table|
    ensures |r| == |table| - 1
    ensures forall i :: 0 <= i < idx ==> r[i] == table[i]
    ensures forall i :: idx <= i < |r| ==> r[i] == table[i + 1]
  {
    table[..idx] + table[idx + 1..]
  }

  /** Deleting removes exactly one occurrence of the deleted record. */
  lemma {:induction false} DeleteRemovesOne(table: seq<Contact>, idx: nat)
    requires idx < |table|
    ensures multiset(DeleteAt(table, idx)) + multiset{table[idx]} == multiset(table)
  {
    assert table == table[..idx] + [table[idx]] + table[idx + 1..];
  }

  /** Putting the deleted record back at its position restores the table. */
  lemma {:induction false} DeleteThenReinsert(table: seq<Contact>, idx: nat)
    requires idx < |table|
    ensures var r := DeleteAt(table, idx); r[..idx] + [table[idx]] + r[idx..] == table
  {
    var r := DeleteAt(table, idx);
    assert r[..idx] == table[..idx];
    assert r[idx..] == table[idx + 1..];
    assert table == table[..idx] + [table[idx]] + table[idx + 1..];
  }
}
