/**
 * The export artifact (src/main.rs:134-151): the dump file is named
 * `dumps/{year}{month}{day}{minute}.json` from the local clock, without
 * separators, padding or the hour, opened for appending (created when
 * missing), and every record's JSON text is written to it back to back.
 * The dump directory is a map from file path to contents.
 */
module Dumps {
  import opened Numbers
  import opened Clock
  import opened Records
  import opened Json

  const DumpDir := "dumps/"
  const DumpSuffix := ".json"

  function DumpName(now: LocalTime): (path: string)
  {
    DumpDir + SignedDecimal(now.year) + Decimal(now.month) + Decimal(now.day) + Decimal(now.minute) + DumpSuffix
  }

  /** What an append-mode open finds: the existing contents, or an empty new file. */
  function FileContents(files: map<string, string>, path: string): string
  {
    if path in files then files[path] else ""
  }

  /** Strings written one after another. */
  function Concat(parts: seq<string>): string
  {
    if parts == [] then "" else Concat(parts[..|parts| - 1]) + parts[|parts| - 1]
  }

  /** The records' JSON texts concatenated, with no separator or enclosing array. */
  function DumpText(rs: seq<NameTagDB>): string
  {
    Concat(JsonTexts(rs))
  }

  function JsonTexts(rs: seq<NameTagDB>): (texts: seq<string>)
    ensures |texts| == |rs|
  {
    seq(|rs|, i requires 0 <= i < |rs| => ToJson(rs[i]))
  }

  /** The dump directory after an export of `rs` at `now`; when the file cannot
      be opened nothing is written. */
  function ExportFiles(files: map<string, string>, rs: seq<NameTagDB>, now: LocalTime, openOk: bool): map<string, string>
  {
    if openOk then files[DumpName(now) := FileContents(files, DumpName(now)) + DumpText(rs)] else files
  }

  lemma {:induction false} ConcatAppend(a: seq<string>, b: seq<string>)
    ensures Concat(a + b) == Concat(a) + Concat(b)
    decreases |b|
  {
    if b == [] {
      assert a + b == a;
    } else {
      var ab := a + b;
      var b' := b[..|b| - 1];
      assert ab[..|ab| - 1] == a + b' && ab[|ab| - 1] == b[|b| - 1];
      ConcatAppend(a, b');
    }
  }

  /** The dump text of a longer list is the dump text of its parts, in order. */
  lemma DumpTextAppend(a: seq<NameTagDB>, b: seq<NameTagDB>)
    ensures DumpText(a + b) == DumpText(a) + DumpText(b)
  {
    assert JsonTexts(a + b) == JsonTexts(a) + JsonTexts(b);
    ConcatAppend(JsonTexts(a), JsonTexts(b));
  }

  /** Writing one more record appends its JSON text. */
  lemma DumpTextSnoc(rs: seq<NameTagDB>, r: NameTagDB)
    ensures DumpText(rs + [r]) == DumpText(rs) + ToJson(r)
  {
    assert JsonTexts(rs + [r]) == JsonTexts(rs) + [ToJson(r)];
    ConcatSnoc(JsonTexts(rs), ToJson(r));
  }

  lemma ConcatSnoc(parts: seq<string>, x: string)
    ensures Concat(parts + [x]) == Concat(parts) + x
  {
    assert (parts + [x])[..|parts|] == parts;
  }

  /** One pass of the export loop: appending the next record's JSON to the file
      keeps it equal to the base contents followed by the records written so far. */
  lemma AppendStep(files: map<string, string>, path: string, base: string, done: seq<NameTagDB>, r: NameTagDB)
    ensures var before := files[path := base + DumpText(done)];
      before[path := before[path] + ToJson(r)] == files[path := base + DumpText(done + [r])]
  {
    DumpTextSnoc(done, r);
    AppendText(files, path, base, DumpText(done), ToJson(r));
  }

  lemma AppendText(files: map<string, string>, path: string, base: string, written: string, more: string)
    ensures var before := files[path := base + written];
      before[path := before[path] + more] == files[path := base + (written + more)]
  {
    assert (base + written) + more == base + (written + more);
  }

  lemma DumpTextEmpty()
    ensures DumpText([]) == ""
  {
    assert JsonTexts([]) == [];
  }

  /** An export never truncates: every file keeps its old contents as a prefix,
      only the dump file of that minute changes, and it grows by exactly the
      records' JSON texts. */
  lemma ExportAppends(files: map<string, string>, rs: seq<NameTagDB>, now: LocalTime, openOk: bool)
    ensures var after := ExportFiles(files, rs, now, openOk);
      && files.Keys <= after.Keys
      && (forall p | p in files :: files[p] <= after[p])
      && (forall p | p in after && p != DumpName(now) :: p in files && after[p] == files[p])
      && (openOk ==> DumpName(now) in after && after[DumpName(now)] == FileContents(files, DumpName(now)) + DumpText(rs))
      && (!openOk ==> after == files)
  {
  }

  /** Two exports in the same minute write to one file, the second after the first. */
  lemma ExportTwiceSameMinute(files: map<string, string>, rs1: seq<NameTagDB>, rs2: seq<NameTagDB>, t1: LocalTime, t2: LocalTime)
    requires t1.year == t2.year && t1.month == t2.month && t1.day == t2.day && t1.minute == t2.minute
    ensures var after := ExportFiles(ExportFiles(files, rs1, t1, true), rs2, t2, true);
      after[DumpName(t1)] == FileContents(files, DumpName(t1)) + DumpText(rs1) + DumpText(rs2)
  {
    assert DumpName(t1) == DumpName(t2);
  }

  /** The name is not injective: it drops the hour, and the unpadded fields run
      together, so 11 January and 1 November 2024 at minute 5 share a file. */
  lemma DumpNameCollision()
    ensures DumpName(LocalTime(2024, 1, 11, 9, 5)) == "dumps/20241115.json"
    ensures DumpName(LocalTime(2024, 11, 1, 17, 5)) == "dumps/20241115.json"
  {
    CollisionDigits();
    assert SignedDecimal(2024) == "2024";
    assert "dumps/" + "2024" + "1" + "11" + "5" + ".json" == "dumps/20241115.json";
    assert "dumps/" + "2024" + "11" + "1" + "5" + ".json" == "dumps/20241115.json";
  }

  lemma CollisionDigits()
    ensures Decimal(2024) == "2024"
    ensures Decimal(11) == "11"
    ensures Decimal(1) == "1"
    ensures Decimal(5) == "5"
  {
    assert Decimal(2) == "2";
    assert Decimal(20) == "20";
    assert Decimal(202) == "202";
  }

  /** With a four-digit year and two-digit month, day and minute, the name does
      identify the minute (apart from the hour). */
  lemma DumpNameWideFields(a: LocalTime, b: LocalTime)
    requires 1000 <= a.year <= 9999 && 10 <= a.month <= 99 && 10 <= a.day <= 99 && 10 <= a.minute <= 99
    requires 1000 <= b.year <= 9999 && 10 <= b.month <= 99 && 10 <= b.day <= 99 && 10 <= b.minute <= 99
    requires DumpName(a) == DumpName(b)
    ensures a.year == b.year && a.month == b.month && a.day == b.day && a.minute == b.minute
  {
    DumpNameFields(a);
    DumpNameFields(b);
    DecimalInjective(a.year, b.year);
    DecimalInjective(a.month, b.month);
    DecimalInjective(a.day, b.day);
    DecimalInjective(a.minute, b.minute);
  }

  lemma DumpNameFields(t: LocalTime)
    requires 1000 <= t.year <= 9999 && 10 <= t.month <= 99 && 10 <= t.day <= 99 && 10 <= t.minute <= 99
    ensures var n := DumpName(t);
      |n| == 21 && n[6..10] == Decimal(t.year) && n[10..12] == Decimal(t.month)
      && n[12..14] == Decimal(t.day) && n[14..16] == Decimal(t.minute)
  {
    assert Pow10(1) == 10 && Pow10(2) == 100 && Pow10(3) == 1000 && Pow10(4) == 10000;
    DecimalLength(t.year, 4);
    DecimalLength(t.month, 2);
    DecimalLength(t.day, 2);
    DecimalLength(t.minute, 2);
    assert SignedDecimal(t.year) == Decimal(t.year);
    NameSlices(DumpDir, Decimal(t.year), Decimal(t.month), Decimal(t.day), Decimal(t.minute), DumpSuffix);
  }

  /** Where each field sits in a name made of six pieces of fixed width. */
  lemma NameSlices(p: string, y: string, mo: string, d: string, mi: string, x: string)
    requires |p| == 6 && |y| == 4 && |mo| == 2 && |d| == 2 && |mi| == 2 && |x| == 5
    ensures var n := p + y + mo + d + mi + x;
      |n| == 21 && n[6..10] == y && n[10..12] == mo && n[12..14] == d && n[14..16] == mi
  {
    var a2 := p + y;
    var a3 := a2 + mo;
    var a4 := a3 + d;
    var a5 := a4 + mi;
    SliceLeft(a5, x, 6, 10);
    SliceLeft(a4, mi, 6, 10);
    SliceLeft(a3, d, 6, 10);
    SliceLeft(a2, mo, 6, 10);
    SliceRight(p, y);
    SliceLeft(a5, x, 10, 12);
    SliceLeft(a4, mi, 10, 12);
    SliceLeft(a3, d, 10, 12);
    SliceRight(a2, mo);
    SliceLeft(a5, x, 12, 14);
    SliceLeft(a4, mi, 12, 14);
    SliceRight(a3, d);
    SliceLeft(a5, x, 14, 16);
    SliceRight(a4, mi);
  }

  lemma SliceLeft<T>(u: seq<T>, v: seq<T>, i: int, j: int)
    requires 0 <= i <= j <= |u|
    ensures (u + v)[i..j] == u[i..j]
  {
  }

  lemma SliceRight<T>(u: seq<T>, v: seq<T>)
    ensures (u + v)[|u|..|u| + |v|] == v
  {
  }
}
