/**
 * The search box over the contact table (app.py lines 185-189). A row is
 * kept when one of its eight columns contains the term, ignoring case; an
 * empty term keeps the whole table. The filtered view keeps every row's
 * original position, so the edit and delete buttons drawn for a filtered row
 * still address the right row of the table.
 */
module Search {
  import opened Text
  import opened Contacts

  /** One row of the filtered view: its position in the table and its values. */
  datatype Entry = Entry(position: nat, row: Contact)

  /** Some column of the record contains the term, ignoring case. */
  predicate RowMatches(c: Contact, term: string) {
    exists k :: 0 <= k < |Fields(c)| && ContainsIgnoreCase(Fields(c)[k], term)
  }

  /** The same test stated by column name: some canonical column's value contains the term. */
  lemma RowMatchesByColumn(c: Contact, term: string)
    ensures RowMatches(c, term) <==>
      exists name :: name in Columns && ContainsIgnoreCase(Column(c, name).value, term)
  {
    var fs := Fields(c);
    FieldsFollowColumns(c);
    if RowMatches(c, term) {
      var k :| 0 <= k < |fs| && ContainsIgnoreCase(fs[k], term);
      assert Columns[k] in Columns && Column(c, Columns[k]).value == fs[k];
    }
    if exists name :: name in Columns && ContainsIgnoreCase(Column(c, name).value, term) {
      var name :| name in Columns && ContainsIgnoreCase(Column(c, name).value, term);
      var k :| 0 <= k < |Columns| && Columns[k] == name;
      assert ContainsIgnoreCase(fs[k], term);
    }
  }

  /**
   * `view` lists rows of `table` under their own positions, in strictly
   * increasing order of position (an order-preserving subsequence).
   */
  ghost predicate IsViewOf(view: seq<Entry>, table: seq<Contact>) {
    && (forall k :: 0 <= k < |view| ==>
          view[k].position < |table| && table[view[k].position] == view[k].row)
    && (forall k1, k2 :: 0 <= k1 < k2 < |view| ==> view[k1].position < view[k2].position)
  }

  /** The whole table as a view, row by row from position `from`. */
  function Enumerate(table: seq<Contact>, from: nat): (r: seq<Entry>)
    requires from <= |table|
    ensures |r| == |table| - from
    ensures forall k :: 0 <= k < |r| ==> r[k] == Entry(from + k, table[from + k])
    decreases |table| - from
  {
    if from == |table| then [] else [Entry(from, table[from])] + Enumerate(table, from + 1)
  }

  /** The rows from position `from` on that match the term, in table order. */
  function Matching(table: seq<Contact>, term: string, from: nat): (r: seq<Entry>)
    requires from <= |table|
    ensures |r| <= |table| - from
    ensures IsViewOf(r, table)
    ensures forall k :: 0 <= k < |r| ==> from <= r[k].position && RowMatches(r[k].row, term)
    decreases |table| - from
  {
    if from == |table| then
      []
    else
      var rest := Matching(table, term, from + 1);
      if RowMatches(table[from], term) then [Entry(from, table[from])] + rest else rest
  }

  /** The filtered view the page iterates over: the whole table for an empty term. */
  function Filter(table: seq<Contact>, term: string): (view: seq<Entry>)
    ensures IsViewOf(view, table)
    ensures |view| <= |table|
    ensures term == "" ==> |view| == |table|
    ensures forall k :: 0 <= k < |view| ==> term == "" || RowMatches(view[k].row, term)
  {
    if term == "" then Enumerate(table, 0) else Matching(table, term, 0)
  }

  /** Some entry of the view stands for table position `i`. */
  ghost predicate Shows(view: seq<Entry>, i: nat) {
    exists k :: 0 <= k < |view| && view[k].position == i
  }

  lemma ShowsCons(e: Entry, rest: seq<Entry>, i: nat)
    ensures Shows([e] + rest, i) <==> e.position == i || Shows(rest, i)
  {
    var r := [e] + rest;
    if Shows(rest, i) {
      var k :| 0 <= k < |rest| && rest[k].position == i;
      assert r[k + 1].position == i;
    }
    if Shows(r, i) && e.position != i {
      var k :| 0 <= k < |r| && r[k].position == i;
      assert rest[k - 1].position == i;
    }
    if e.position == i {
      assert r[0].position == i;
    }
  }

  /** A position appears in the view exactly when that row matches. */
  lemma {:induction false} MatchingMembership(table: seq<Contact>, term: string, from: nat, i: nat)
    requires from <= |table|
    ensures Shows(Matching(table, term, from), i) <==> (from <= i < |table| && RowMatches(table[i], term))
    decreases |table| - from
  {
    if from < |table| {
      MatchingMembership(table, term, from + 1, i);
      var rest := Matching(table, term, from + 1);
      if RowMatches(table[from], term) {
        ShowsCons(Entry(from, table[from]), rest, i);
      }
    }
  }

  /**
   * The search result holds a row exactly when the row matches the term
   * (every row, for an empty term), and under that row's own position.
   */
  lemma {:induction false} FilterMembership(table: seq<Contact>, term: string, i: nat)
    ensures Shows(Filter(table, term), i) <==> (i < |table| && (term == "" || RowMatches(table[i], term)))
  {
    var view := Filter(table, term);
    if term == "" {
      if i < |table| {
        assert view[i].position == i;
      }
    } else {
      MatchingMembership(table, term, 0, i);
    }
  }

  /** Every record contains the empty string, so the empty term is no filter at all. */
  lemma {:induction false} MatchingEmptyTermIsEnumerate(table: seq<Contact>, from: nat)
    requires from <= |table|
    ensures Matching(table, "", from) == Enumerate(table, from)
    decreases |table| - from
  {
    if from < |table| {
      EmptyOccursEverywhere(table[from].business);
      assert Fields(table[from])[0] == table[from].business;
      assert RowMatches(table[from], "");
      MatchingEmptyTermIsEnumerate(table, from + 1);
    }
  }

  /** The shortcut for an empty term gives the same view as filtering with it. */
  lemma EmptyTermShortcut(table: seq<Contact>)
    ensures Filter(table, "") == Matching(table, "", 0)
  {
    MatchingEmptyTermIsEnumerate(table, 0);
  }

  /** Whether a row matches does not depend on the case of the term. */
  lemma RowMatchesIgnoresTermCase(c: Contact, term: string)
    ensures RowMatches(c, LowerStr(term)) == RowMatches(c, term)
  {
    forall k | 0 <= k < |Fields(c)|
      ensures ContainsIgnoreCase(Fields(c)[k], LowerStr(term)) == ContainsIgnoreCase(Fields(c)[k], term)
    {
      FoldedTermSame(Fields(c)[k], term);
    }
  }

  /** The view of an empty table is empty. */
  lemma FilterEmptyTable(term: string)
    ensures Filter([], term) == []
  {
  }
}
