/**
 * The file layer of the built-in PDF writer (reports/generator.py, _pdf_payload), against a reader
 * that follows ISO 32000-1:2008, sections 7.5.4 (cross-reference table) and 7.5.5 (trailer).
 * A byte is a character below 256.
 */
module PdfFile {
  import opened Options
  import opened Decimal

  // ----- What the writer produces -----

  function Header(): string { "%PDF-1.4\n%\U{E2}\U{E3}\U{CF}\U{D3}\n" }
  function ObjMark(): string { " 0 obj\n" }
  function EndMark(): string { "\nendobj\n" }
  function XrefMark(): string { "xref\n0 " }
  function FreeEntry(): string { "0000000000 65535 f \n" }
  function InUseMark(): string { " 00000 n \n" }
  function SizeMark(): string { "trailer\n<< /Size " }
  function RootMark(): string { " /Root 1 0 R >>\n" }
  function StartMark(): string { "startxref\n" }
  function EofMark(): string { "\n%%EOF\n" }

  const EntrySize := 20

  function ObjectText(n: nat, body: string): string {
    Dec(n) + ObjMark() + body + EndMark()
  }

  /** The header and the first k objects. */
  function BodyUpTo(objects: seq<string>, k: nat): string
    requires k <= |objects|
  {
    if k == 0 then Header() else BodyUpTo(objects, k - 1) + ObjectText(k, objects[k - 1])
  }

  function XrefEntry(offset: nat): string {
    Padded(offset, 10) + InUseMark()
  }

  /** The free entry and the entries of the first k objects. */
  function EntriesUpTo(objects: seq<string>, k: nat): string
    requires k <= |objects|
  {
    if k == 0 then FreeEntry()
    else EntriesUpTo(objects, k - 1) + XrefEntry(|BodyUpTo(objects, k - 1)|)
  }

  function Trailer(size: nat, xrefOffset: nat): string {
    SizeMark() + Dec(size) + RootMark() + StartMark() + Dec(xrefOffset) + EofMark()
  }

  function FileOf(objects: seq<string>): string {
    var body := BodyUpTo(objects, |objects|);
    body + XrefMark() + Dec(|objects| + 1) + "\n" + EntriesUpTo(objects, |objects|)
    + Trailer(|objects| + 1, |body|)
  }

  /** The writer: offsets are noted while the objects are appended, and listed afterwards. */
  method PdfPayload(objects: seq<string>) returns (payload: string)
    ensures payload == FileOf(objects)
  {
    hide BodyUpTo, EntriesUpTo, Trailer, XrefMark;
    var offsets;
    payload, offsets := AppendObjects(objects);
    var xrefOffset := |payload|;
    payload := payload + XrefMark() + Dec(|objects| + 1) + "\n";
    payload := AppendEntries(objects, payload, offsets);
    payload := payload + Trailer(|objects| + 1, xrefOffset);
  }

  method AppendObjects(objects: seq<string>) returns (payload: string, offsets: seq<nat>)
    ensures payload == BodyUpTo(objects, |objects|) && |offsets| == |objects| + 1
    ensures forall i :: 1 <= i <= |objects| ==> offsets[i] == |BodyUpTo(objects, i - 1)|
  {
    hide ObjectText, Header;
    payload, offsets := Header(), [0];
    for k := 0 to |objects|
      invariant payload == BodyUpTo(objects, k)
      invariant |offsets| == k + 1
      invariant forall i :: 1 <= i <= k ==> offsets[i] == |BodyUpTo(objects, i - 1)|
    {
      offsets := offsets + [|payload|];
      payload := payload + ObjectText(k + 1, objects[k]);
    }
  }

  method AppendEntries(objects: seq<string>, front: string, offsets: seq<nat>) returns (payload: string)
    requires |offsets| == |objects| + 1
    requires forall i :: 1 <= i <= |objects| ==> offsets[i] == |BodyUpTo(objects, i - 1)|
    ensures payload == front + EntriesUpTo(objects, |objects|)
  {
    hide BodyUpTo, FreeEntry, XrefEntry;
    payload := front + FreeEntry();
    for i := 1 to |offsets|
      invariant payload == front + EntriesUpTo(objects, i - 1)
    {
      payload := payload + XrefEntry(offsets[i]);
    }
  }

  // ----- What a reader does -----

  predicate StartsWith(s: string, p: string) {
    p <= s
  }

  predicate EndsWith(s: string, p: string) {
    |p| <= |s| && s[|s| - |p|..] == p
  }

  /** The number before the end-of-file marker: where the cross-reference table starts. */
  function ReadStartXref(file: string): Option<nat> {
    if !EndsWith(file, EofMark()) then None
    else
      var front := file[..|file| - |EofMark()|];
      var digits := DigitSuffix(front);
      if digits == "" || !EndsWith(front[..|front| - |digits|], StartMark()) then None
      else Some(Undec(digits))
  }

  /** The offset the n-th entry of a table gives, if the table has that entry and it is in use. */
  function ReadEntry(table: string, n: nat): Option<nat> {
    if !StartsWith(table, XrefMark()) then None
    else
      var counted := table[|XrefMark()|..];
      var digits := DigitPrefix(counted);
      var entries := counted[|digits|..];
      if digits == "" || !StartsWith(entries, "\n") || n >= Undec(digits)
         || |entries| < 1 + EntrySize * (n + 1) then None
      else
        var entry := entries[1 + EntrySize * n..1 + EntrySize * (n + 1)];
        if AllDigits(entry[..10]) && entry[10..] == InUseMark() then Some(Undec(entry[..10])) else None
  }

  /** Everything from the start of the n-th object's content on. */
  function ReadObject(file: string, n: nat): Option<string> {
    match ReadStartXref(file)
    case None => None
    case Some(xref) =>
      if xref > |file| then None
      else
        match ReadEntry(file[xref..], n)
        case None => None
        case Some(offset) =>
          var mark := Dec(n) + ObjMark();
          if offset <= |file| && StartsWith(file[offset..], mark) then Some(file[offset + |mark|..]) else None
  }

  // ----- The reader undoes the writer -----

  /** An entry has its twenty bytes exactly for offsets of at most ten digits. */
  lemma EntryWidth(offset: nat)
    ensures |XrefEntry(offset)| == EntrySize <==> offset < Pow10(10)
  {
    PaddedLength(offset, 10);
  }

  lemma {:induction false} BodyPrefix(objects: seq<string>, j: nat, k: nat)
    requires j <= k <= |objects|
    ensures BodyUpTo(objects, j) <= BodyUpTo(objects, k)
    decreases k
  {
    hide ObjectText, Header;
    if j < k {
      BodyPrefix(objects, j, k - 1);
    }
  }

  /** All offsets fit the table. */
  predicate Fits(objects: seq<string>) {
    objects == [] || |BodyUpTo(objects, |objects| - 1)| < Pow10(10)
  }

  lemma {:induction false} EntriesLength(objects: seq<string>, k: nat)
    requires k <= |objects| && Fits(objects)
    ensures |EntriesUpTo(objects, k)| == EntrySize * (k + 1)
  {
    hide XrefEntry, BodyUpTo, Pow10;
    if k > 0 {
      EntriesLength(objects, k - 1);
      BodyPrefix(objects, k - 1, |objects| - 1);
      EntryWidth(|BodyUpTo(objects, k - 1)|);
    }
  }

  lemma {:induction false} EntryAt(objects: seq<string>, n: nat, k: nat)
    requires 1 <= n <= k <= |objects| && Fits(objects)
    ensures |EntriesUpTo(objects, k)| == EntrySize * (k + 1)
    ensures EntriesUpTo(objects, k)[EntrySize * n..EntrySize * (n + 1)] == XrefEntry(|BodyUpTo(objects, n - 1)|)
    decreases k
  {
    hide XrefEntry, BodyUpTo, Fits, Pow10;
    EntriesLength(objects, k);
    EntriesLength(objects, k - 1);
    if n < k {
      EntryAt(objects, n, k - 1);
    }
  }

  lemma ReadEntryOf(objects: seq<string>, n: nat, rest: string)
    requires 1 <= n <= |objects| && Fits(objects)
    ensures ReadEntry(XrefMark() + Dec(|objects| + 1) + "\n" + EntriesUpTo(objects, |objects|) + rest, n)
         == Some(|BodyUpTo(objects, n - 1)|)
  {
    hide BodyUpTo, Fits, Pow10, EntriesUpTo, Dec, Undec, XrefMark, Padded;
    var size, entries := Dec(|objects| + 1), EntriesUpTo(objects, |objects|);
    var table := XrefMark() + size + "\n" + entries + rest;
    var counted := table[|XrefMark()|..];
    assert counted == size + ("\n" + entries + rest);
    DigitPrefixOf(size, "\n" + entries + rest);
    DecRoundTrip(|objects| + 1);
    assert counted[|size|..] == "\n" + entries + rest;
    EntryAt(objects, n, |objects|);
    var offset := |BodyUpTo(objects, n - 1)|;
    var entry := counted[|size|..][1 + EntrySize * n..1 + EntrySize * (n + 1)];
    assert entry == entries[EntrySize * n..EntrySize * (n + 1)] == XrefEntry(offset);
    assert |XrefEntry(offset)| == EntrySize;
    assert entry[..10] == Padded(offset, 10) && entry[10..] == InUseMark();
    PaddedRoundTrip(offset, 10);
  }

  lemma ReadStartXrefOf(front: string, xref: nat)
    ensures ReadStartXref(front + StartMark() + Dec(xref) + EofMark()) == Some(xref)
  {
    hide Dec, Undec, EofMark;
    var file := front + StartMark() + Dec(xref) + EofMark();
    var before := front + StartMark();
    assert file[..|file| - |EofMark()|] == before + Dec(xref);
    DigitSuffixOf(before, Dec(xref));
    DecRoundTrip(xref);
    assert (before + Dec(xref))[..|before|] == before;
  }

  /** Everything after the objects. */
  function TableOf(objects: seq<string>): string {
    XrefMark() + Dec(|objects| + 1) + "\n" + EntriesUpTo(objects, |objects|)
    + Trailer(|objects| + 1, |BodyUpTo(objects, |objects|)|)
  }

  lemma FileParts(objects: seq<string>)
    ensures FileOf(objects) == BodyUpTo(objects, |objects|) + TableOf(objects)
    ensures FileOf(objects)[|BodyUpTo(objects, |objects|)|..] == TableOf(objects)
  {
    hide BodyUpTo, EntriesUpTo, Trailer, XrefMark, Dec;
    var body, file := BodyUpTo(objects, |objects|), FileOf(objects);
    assert file == body + TableOf(objects);
    assert file[|body|..] == TableOf(objects);
  }

  lemma FileEnd(objects: seq<string>)
    ensures ReadStartXref(FileOf(objects)) == Some(|BodyUpTo(objects, |objects|)|)
  {
    hide BodyUpTo, EntriesUpTo, XrefMark, Dec, EofMark, StartMark, RootMark, SizeMark, ReadStartXref;
    var count := |objects|;
    var body := BodyUpTo(objects, count);
    var front := body + XrefMark() + Dec(count + 1) + "\n" + EntriesUpTo(objects, count)
                 + SizeMark() + Dec(count + 1) + RootMark();
    assert FileOf(objects) == front + StartMark() + Dec(|body|) + EofMark();
    ReadStartXrefOf(front, |body|);
  }

  /** The bytes of an object stand at the offset noted for it. */
  lemma ObjectStands(objects: seq<string>, n: nat, rest: string)
    requires 1 <= n <= |objects|
    ensures var offset, mark := |BodyUpTo(objects, n - 1)|, Dec(n) + ObjMark();
            var file := BodyUpTo(objects, |objects|) + rest;
            && offset <= |file| && mark <= file[offset..]
            && offset + |mark| <= |file| && objects[n - 1] + EndMark() <= file[offset + |mark|..]
  {
    hide Header, Dec, ObjMark, EndMark;
    BodyPrefix(objects, n, |objects|);
    var before, mark, written := BodyUpTo(objects, n - 1), Dec(n) + ObjMark(), objects[n - 1] + EndMark();
    var file := BodyUpTo(objects, |objects|) + rest;
    assert BodyUpTo(objects, n) == before + (mark + written);
    HoldsAt(before, mark, written, file);
  }

  lemma HoldsAt(before: string, mark: string, written: string, file: string)
    requires before + (mark + written) <= file
    ensures mark <= file[|before|..] && written <= file[|before| + |mark|..]
  {
    var tail := file[|before + (mark + written)|..];
    assert file == before + (mark + written) + tail;
    assert file[|before|..] == mark + (written + tail);
    assert file[|before| + |mark|..] == written + tail;
  }

  /**
   * Reading any object through startxref and the table finds exactly the bytes written for it,
   * whatever the objects contain, as long as the offsets have at most ten digits.
   */
  lemma ReadObjectOf(objects: seq<string>, n: nat)
    requires 1 <= n <= |objects| && Fits(objects)
    ensures ReadObject(FileOf(objects), n).Some?
    ensures objects[n - 1] + EndMark() <= ReadObject(FileOf(objects), n).value
  {
    hide Header, Dec, Fits, EntriesUpTo, BodyUpTo, ReadEntry, ReadStartXref, XrefMark, ObjMark, EndMark, Trailer,
        FileOf;
    FileParts(objects);
    FileEnd(objects);
    ReadEntryOf(objects, n, Trailer(|objects| + 1, |BodyUpTo(objects, |objects|)|));
    ObjectStands(objects, n, TableOf(objects));
  }
}
