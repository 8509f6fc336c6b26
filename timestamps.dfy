/**
 * The two clock renderings the application uses: the Date Added value of a
 * new contact (strftime "%Y-%m-%d %H:%M", app.py line 158) and the name of
 * the exported CSV file (strftime "%Y%m%d_%H%M", line 272). The clock itself
 * is not modelled: the caller passes the current time as a Timestamp.
 */
module Timestamps {
  import opened Wrappers
  import opened Text

  /** The minute-resolution part of a wall-clock reading. */
  datatype Timestamp = Timestamp(year: nat, month: nat, day: nat, hour: nat, minute: nat)

  predicate IsLeapYear(y: nat) {
    y % 4 == 0 && (y % 100 != 0 || y % 400 == 0)
  }

  function DaysInMonth(y: nat, m: nat): nat
    requires 1 <= m <= 12
  {
    if m == 2 then (if IsLeapYear(y) then 29 else 28)
    else if m == 4 || m == 6 || m == 9 || m == 11 then 30
    else 31
  }

  /** A reading a Python datetime can hold (years 1 to 9999). */
  predicate Valid(t: Timestamp) {
    && 1 <= t.year <= 9999
    && 1 <= t.month <= 12
    && 1 <= t.day <= DaysInMonth(t.year, t.month)
    && t.hour < 24
    && t.minute < 60
  }

  /**
   * Five digit fields with one separator between each pair, as the Date
   * Added format lays them out: where each field and separator sits.
   */
  lemma {:induction false} Layout(y: string, mo: string, d: string, h: string, mi: string,
                                  c1: char, c2: char, c3: char, c4: char)
    requires |y| == 4 && |mo| == 2 && |d| == 2 && |h| == 2 && |mi| == 2
    ensures var s := y + [c1] + mo + [c2] + d + [c3] + h + [c4] + mi;
      && |s| == 16
      && s[0..4] == y && s[4] == c1 && s[5..7] == mo && s[7] == c2 && s[8..10] == d
      && s[10] == c3 && s[11..13] == h && s[13] == c4 && s[14..16] == mi
  {
  }

  /** A sixteen-character string is the concatenation of its fields and separators. */
  lemma {:induction false} Decompose(s: string)
    requires |s| == 16
    ensures s == s[0..4] + [s[4]] + s[5..7] + [s[7]] + s[8..10] + [s[10]] + s[11..13] + [s[13]] + s[14..16]
  {
    var r := s[0..4] + [s[4]] + s[5..7] + [s[7]] + s[8..10] + [s[10]] + s[11..13] + [s[13]] + s[14..16];
    Layout(s[0..4], s[5..7], s[8..10], s[11..13], s[14..16], s[4], s[7], s[10], s[13]);
    assert |r| == 16;
    forall i | 0 <= i < 16 ensures r[i] == s[i] {
      if i < 4 { assert r[i] == r[0..4][i]; }
      else if i == 4 { }
      else if i < 7 { assert r[i] == r[5..7][i - 5]; }
      else if i == 7 { }
      else if i < 10 { assert r[i] == r[8..10][i - 8]; }
      else if i == 10 { }
      else if i < 13 { assert r[i] == r[11..13][i - 11]; }
      else if i == 13 { }
      else { assert r[i] == r[14..16][i - 14]; }
    }
  }

  /**
   * The Date Added text, field by field. `FormatDateAdded` returns this string
   * and adds the layout contract. The compaction proof below works on this
   * plain form, so it does not carry that sixteen-offset contract with it.
   */
  function DateAddedText(t: Timestamp): string
    requires Valid(t)
  {
    PadDigits(t.year, 4) + "-" + PadDigits(t.month, 2) + "-" + PadDigits(t.day, 2)
      + " " + PadDigits(t.hour, 2) + ":" + PadDigits(t.minute, 2)
  }

  /**
   * Date Added: "YYYY-MM-DD HH:MM", every field zero-padded. The contract
   * gives the layout: sixteen characters, separators at fixed offsets, and
   * each digit field reading back as the component it stands for.
   */
  function FormatDateAdded(t: Timestamp): (s: string)
    requires Valid(t)
    ensures |s| == 16
    ensures s[4] == '-' && s[7] == '-' && s[10] == ' ' && s[13] == ':'
    ensures AllDigits(s[0..4]) && AllDigits(s[5..7]) && AllDigits(s[8..10])
    ensures AllDigits(s[11..13]) && AllDigits(s[14..16])
    ensures ValueOf(s[0..4]) == t.year && ValueOf(s[5..7]) == t.month && ValueOf(s[8..10]) == t.day
    ensures ValueOf(s[11..13]) == t.hour && ValueOf(s[14..16]) == t.minute
  {
    Layout(PadDigits(t.year, 4), PadDigits(t.month, 2), PadDigits(t.day, 2),
           PadDigits(t.hour, 2), PadDigits(t.minute, 2), '-', '-', ' ', ':');
    DateAddedText(t)
  }

  /** Reads a Date Added string back; None unless it is a well-formed reading. */
  function ParseDateAdded(s: string): Option<Timestamp> {
    if && |s| == 16
       && s[4] == '-' && s[7] == '-' && s[10] == ' ' && s[13] == ':'
       && AllDigits(s[0..4]) && AllDigits(s[5..7]) && AllDigits(s[8..10])
       && AllDigits(s[11..13]) && AllDigits(s[14..16])
    then
      var t := Timestamp(ValueOf(s[0..4]), ValueOf(s[5..7]), ValueOf(s[8..10]),
                         ValueOf(s[11..13]), ValueOf(s[14..16]));
      if Valid(t) then Some(t) else None
    else
      None
  }

  /** Formatting loses nothing: parsing gives the reading back. */
  lemma ParseFormatRoundTrip(t: Timestamp)
    requires Valid(t)
    ensures ParseDateAdded(FormatDateAdded(t)) == Some(t)
  {
  }

  /** Formatting is onto the well-formed strings: parse then format is the identity. */
  lemma {:induction false} FormatParseRoundTrip(s: string, t: Timestamp)
    requires ParseDateAdded(s) == Some(t)
    ensures Valid(t) && FormatDateAdded(t) == s
  {
    PadDigitsOfValue(s[0..4]);
    PadDigitsOfValue(s[5..7]);
    PadDigitsOfValue(s[8..10]);
    PadDigitsOfValue(s[11..13]);
    PadDigitsOfValue(s[14..16]);
    Decompose(s);
  }

  /** Distinct readings never share a Date Added string. */
  lemma FormatDateAddedInjective(t1: Timestamp, t2: Timestamp)
    requires Valid(t1) && Valid(t2)
    ensures FormatDateAdded(t1) == FormatDateAdded(t2) ==> t1 == t2
  {
    ParseFormatRoundTrip(t1);
    ParseFormatRoundTrip(t2);
  }

  // ---------------------------------------------------------------------------
  // Export file name

  const ExportPrefix: string := "contacts_"
  const ExportSuffix: string := ".csv"

  /** Where the prefix, the five digit fields, the '_' and the suffix of an export name sit. */
  lemma {:induction false} ExportLayout(y: string, mo: string, d: string, h: string, mi: string)
    requires |y| == 4 && |mo| == 2 && |d| == 2 && |h| == 2 && |mi| == 2
    ensures var s := ExportPrefix + y + mo + d + "_" + h + mi + ExportSuffix;
      && |s| == 26
      && s[..9] == ExportPrefix && s[9..13] == y && s[13..15] == mo && s[15..17] == d
      && s[17] == '_' && s[18..20] == h && s[20..22] == mi && s[22..] == ExportSuffix
  {
  }

  /**
   * "contacts_YYYYMMDD_HHMM.csv", every field zero-padded. The contract gives
   * the layout: the fixed prefix and suffix, one '_' between date and time,
   * and each digit field reading back as the component it stands for.
   */
  function ExportFileName(t: Timestamp): (s: string)
    requires Valid(t)
    ensures |s| == 26 && s[..9] == ExportPrefix && s[22..] == ExportSuffix && s[17] == '_'
    ensures AllDigits(s[9..13]) && AllDigits(s[13..15]) && AllDigits(s[15..17])
    ensures AllDigits(s[18..20]) && AllDigits(s[20..22])
    ensures ValueOf(s[9..13]) == t.year && ValueOf(s[13..15]) == t.month && ValueOf(s[15..17]) == t.day
    ensures ValueOf(s[18..20]) == t.hour && ValueOf(s[20..22]) == t.minute
  {
    ExportLayout(PadDigits(t.year, 4), PadDigits(t.month, 2), PadDigits(t.day, 2),
                 PadDigits(t.hour, 2), PadDigits(t.minute, 2));
    ExportPrefix
      + PadDigits(t.year, 4) + PadDigits(t.month, 2) + PadDigits(t.day, 2)
      + "_" + PadDigits(t.hour, 2) + PadDigits(t.minute, 2)
      + ExportSuffix
  }

  /** The file-name stamp is the Date Added text with '-' and ':' dropped and ' ' turned into '_'. */
  function Compact(s: string): string
  {
    if s == [] then [] else CompactChar(s[0]) + Compact(s[1..])
  }

  function CompactChar(ch: char): string {
    if ch == '-' || ch == ':' then [] else if ch == ' ' then "_" else [ch]
  }

  lemma {:induction false} CompactAppend(a: string, b: string)
    ensures Compact(a + b) == Compact(a) + Compact(b)
  {
    if a != [] {
      assert (a + b)[0] == a[0];
      assert (a + b)[1..] == a[1..] + b;
      CompactAppend(a[1..], b);
      calc {
        Compact(a + b);
        CompactChar(a[0]) + Compact(a[1..] + b);
        CompactChar(a[0]) + (Compact(a[1..]) + Compact(b));
        (CompactChar(a[0]) + Compact(a[1..])) + Compact(b);
      }
    } else {
      assert a + b == b;
    }
  }

  lemma {:induction false} CompactDigits(s: string)
    requires AllDigits(s)
    ensures Compact(s) == s
  {
    if s != [] {
      CompactDigits(s[1..]);
    }
  }

  lemma CompactSeparators()
    ensures Compact("-") == [] && Compact(":") == [] && Compact(" ") == "_"
  {
    assert "-"[1..] == [] && ":"[1..] == [] && " "[1..] == [];
  }

  /** Compacting the Date Added text leaves its digits and one '_'. */
  lemma {:induction false} CompactDateAdded(t: Timestamp)
    requires Valid(t)
    ensures Compact(DateAddedText(t))
         == PadDigits(t.year, 4) + PadDigits(t.month, 2) + PadDigits(t.day, 2)
            + "_" + PadDigits(t.hour, 2) + PadDigits(t.minute, 2)
  {
    var y, mo, d, h, mi := PadDigits(t.year, 4), PadDigits(t.month, 2), PadDigits(t.day, 2),
                           PadDigits(t.hour, 2), PadDigits(t.minute, 2);
    CompactDigits(y); CompactDigits(mo); CompactDigits(d); CompactDigits(h); CompactDigits(mi);
    CompactSeparators();
    var p1 := y + "-";   CompactAppend(y, "-");    assert Compact(p1) == y;
    var p2 := p1 + mo;   CompactAppend(p1, mo);    assert Compact(p2) == y + mo;
    var p3 := p2 + "-";  CompactAppend(p2, "-");   assert Compact(p3) == y + mo;
    var p4 := p3 + d;    CompactAppend(p3, d);     assert Compact(p4) == y + mo + d;
    var p5 := p4 + " ";  CompactAppend(p4, " ");   assert Compact(p5) == y + mo + d + "_";
    var p6 := p5 + h;    CompactAppend(p5, h);     assert Compact(p6) == y + mo + d + "_" + h;
    var p7 := p6 + ":";  CompactAppend(p6, ":");   assert Compact(p7) == y + mo + d + "_" + h;
    var p8 := p7 + mi;   CompactAppend(p7, mi);    assert Compact(p8) == y + mo + d + "_" + h + mi;
    assert DateAddedText(t) == p8;
  }

  /**
   * Both renderings of one reading carry the same digits: the export name is
   * the prefix, the compacted Date Added text and the suffix.
   */
  lemma {:induction false} ExportNameMatchesDateAdded(t: Timestamp)
    requires Valid(t)
    ensures ExportFileName(t) == ExportPrefix + Compact(FormatDateAdded(t)) + ExportSuffix
  {
    ExportFileNameText(t);
    CompactDateAdded(t);
  }

  /** The export name is the prefix, the five padded fields with one '_', and the suffix. */
  lemma ExportFileNameText(t: Timestamp)
    requires Valid(t)
    ensures ExportFileName(t)
         == ExportPrefix + PadDigits(t.year, 4) + PadDigits(t.month, 2) + PadDigits(t.day, 2)
            + "_" + PadDigits(t.hour, 2) + PadDigits(t.minute, 2) + ExportSuffix
  {
  }
}
