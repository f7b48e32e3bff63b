/** The writer's output is what the reader expects: every offset it prints is right. */
module PdfReadBack {
  import opened Wrappers
  import opened Decimals
  import opened PdfStrings
  import opened PdfWriter
  import opened PdfReader

  /** What the writer writes is what the reader looks for. */
  lemma SameMarks()
    ensures EofMark() == EndOfFile() && StartMark() == StartXref() && XrefMark() == XrefHead()
    ensures InUseMark() == EntryTail() && LengthMark() == LengthHead() && StreamMark() == StreamHead()
    ensures EndStreamMark() == StreamTail() + ObjectTail()
    ensures ShowMark() == ContentHead() && EndShowMark() == ContentTail()
    ensures forall i :: ObjectMark(i) == ObjectHead(i)
  {
  }

  lemma StartsAtMiddle(a: string, s: string, b: string)
    ensures StartsAt(a + s + b, |a|, s)
    ensures StartsAt(a + (s + b), |a|, s)
  {
    assert a + (s + b) == a + s + b;
  }

  lemma SliceOfSlice(s: string, a: nat, b: nat, i: nat, j: nat)
    requires a <= b <= |s| && i <= j <= b - a
    ensures s[a..b][i..j] == s[a + i..a + j]
  {
    forall k | 0 <= k < j - i ensures s[a..b][i..j][k] == s[a + i..a + j][k] {
      assert s[a..b][i + k] == s[a + i + k];
    }
  }

  lemma StartsAtPart(file: string, at: nat, a: string, s: string, b: string)
    requires StartsAt(file, at, a + s + b)
    ensures StartsAt(file, at + |a|, s)
  {
    var whole := file[at..at + |a + s + b|];
    assert whole[|a|..|a| + |s|] == s;
    SliceOfSlice(file, at, at + |whole|, |a|, |a| + |s|);
  }

  lemma StartsAtNested(file: string, at: nat, s: string, inner: nat, t: string)
    requires StartsAt(file, at, s) && StartsAt(s, inner, t)
    ensures StartsAt(file, at + inner, t)
  {
    SliceOfSlice(file, at, at + |s|, inner, inner + |t|);
  }

  lemma RestAfter(file: string, at: nat, s: string)
    requires StartsAt(file, at, s)
    ensures at + |s| <= |file| && file[at..] == s + file[at + |s|..]
    ensures s != "" ==> file[at] == s[0]
  {
    assert file[at..] == file[at..at + |s|] + file[at + |s|..];
    assert s != "" ==> file[at] == file[at..at + |s|][0];
  }

  lemma NumberAtPart(file: string, at: nat, a: string, n: nat, b: string)
    requires StartsAt(file, at, a + Decimal(n) + b) && b != "" && !IsDigit(b[0])
    ensures NumberAt(file, at + |a|) == Some((|Decimal(n)|, n))
  {
    var d := Decimal(n);
    assert |d| > 0 && StartsAt(file, at + |a|, d) && StartsAt(file, at + |a| + |d|, b) by {
      hide StartsAt, Decimal;
      ParseDecimal(n);
      StartsAtPart(file, at, a, d, b);
      assert a + d + b == (a + d) + b + "";
      StartsAtPart(file, at, a + d, b, "");
    }
    NumberRead(file, at + |a|, n, b);
  }

  lemma NumberRead(file: string, at: nat, n: nat, b: string)
    requires StartsAt(file, at, Decimal(n)) && StartsAt(file, at + |Decimal(n)|, b) && b != "" && !IsDigit(b[0])
    ensures NumberAt(file, at) == Some((|Decimal(n)|, n))
  {
    hide StartsAt, Decimal;
    var d := Decimal(n);
    ParseDecimal(n);
    RestAfter(file, at, d);
    RestAfter(file, at + |d|, b);
    LeadingOf(d, file[at + |d|..]);
  }

  // ---------------------------------------------------------------- the cross-reference offset

  lemma {:induction false} TrailingOf(before: string, s: string)
    requires AllDigits(s) && (before == "" || !IsDigit(before[|before| - 1]))
    ensures TrailingDigits(before + s) == |s|
  {
    if s != "" {
      assert (before + s)[..|before + s| - 1] == before + s[..|s| - 1];
      TrailingOf(before, s[..|s| - 1]);
    } else {
      assert before + s == before;
    }
  }

  lemma FindXrefAfter(head: string, n: nat)
    ensures FindXref(head + StartXref() + Decimal(n) + EndOfFile()) == Some(n)
  {
    hide Decimal;
    var before, d := head + StartXref(), Decimal(n);
    var lines := before + d;
    var file := lines + EndOfFile();
    ParseDecimal(n);
    TrailingOf(before, d);
    assert file[|file| - |EndOfFile()|..] == EndOfFile() && file[..|file| - |EndOfFile()|] == lines;
    assert lines[|lines| - |d|..] == d && lines[..|lines| - |d|] == before;
    assert before[|before| - |StartXref()|..] == StartXref();
  }

  lemma XrefIsFound(objects: seq<string>)
    ensures FindXref(File(objects)) == Some(|BodyUpTo(objects, |objects|)|)
  {
    hide Decimal, FindXref, Padded, BodyUpTo, EntriesUpTo;
    var body := BodyUpTo(objects, |objects|);
    var table := body + (XrefHead() + Decimal(|objects| + 1) + "\n") + FreeEntry() + EntriesUpTo(objects, |objects|);
    var head := table + ("trailer\n<< /Size " + Decimal(|objects| + 1) + " /Root 1 0 R >>\n");
    assert File(objects) == head + StartXref() + Decimal(|body|) + EndOfFile();
    FindXrefAfter(head, |body|);
  }

  // ---------------------------------------------------------------- the table

  lemma {:induction false} BodyGrows(objects: seq<string>, i: nat, k: nat)
    requires i <= k <= |objects|
    ensures |BodyUpTo(objects, i)| <= |BodyUpTo(objects, k)|
    ensures BodyUpTo(objects, k)[..|BodyUpTo(objects, i)|] == BodyUpTo(objects, i)
    decreases k
  {
    if i < k {
      hide ObjectHead, ObjectTail;
      BodyGrows(objects, i, k - 1);
    }
  }

  /** Entries are 20 bytes each, so the one of object i starts 20 * (i - 1) bytes in. */
  lemma {:induction false} EntriesAreAligned(objects: seq<string>, i: nat, k: nat)
    requires 1 <= i <= k <= |objects| && |BodyUpTo(objects, k)| < 10000000000
    ensures |EntriesUpTo(objects, k)| == 20 * k
    ensures StartsAt(EntriesUpTo(objects, k), 20 * (i - 1), Entry(|BodyUpTo(objects, i - 1)|))
    decreases k
  {
    hide BodyUpTo, Padded;
    var offset := |BodyUpTo(objects, k - 1)|;
    var before := EntriesUpTo(objects, k - 1);
    BodyGrows(objects, k - 1, k);
    PaddedReadsBack(offset);
    if i < k {
      EntriesAreAligned(objects, i, k - 1);
    } else if k > 1 {
      EntriesAreAligned(objects, k - 1, k - 1);
    } else {
      assert EntriesUpTo(objects, 0) == "";
    }
    assert EntriesUpTo(objects, k) == before + Entry(offset);
  }

  /** Where the file has the text of object i. */
  lemma ObjectInFile(objects: seq<string>, i: nat)
    requires 1 <= i <= |objects|
    ensures StartsAt(File(objects), |BodyUpTo(objects, i - 1)|, ObjectHead(i) + objects[i - 1] + ObjectTail())
  {
    hide Decimal, Padded, EntriesUpTo, ObjectHead, ObjectTail, Trailer, FreeEntry, XrefHead, StartsAt;
    var n := |objects|;
    var body, upTo, before := BodyUpTo(objects, n), BodyUpTo(objects, i), BodyUpTo(objects, i - 1);
    var text := ObjectHead(i) + objects[i - 1] + ObjectTail();
    BodyGrows(objects, i, n);
    assert upTo == before + text + "";
    StartsAtMiddle(before, text, "");
    assert body == upTo + body[|upTo|..];
    var rest := (XrefHead() + Decimal(n + 1) + "\n") + FreeEntry() + EntriesUpTo(objects, n) + Trailer(n + 1, |body|);
    assert File(objects) == "" + upTo + (body[|upTo|..] + rest);
    StartsAtMiddle("", upTo, body[|upTo|..] + rest);
    StartsAtNested(File(objects), 0, upTo, |before|, text);
  }

  /** Where the file has its cross-reference section. */
  lemma TableInFile(objects: seq<string>)
    ensures StartsAt(File(objects), |BodyUpTo(objects, |objects|)|,
                     XrefHead() + Decimal(|objects| + 1) + ("\n" + FreeEntry() + EntriesUpTo(objects, |objects|)))
  {
    hide Decimal, Padded, EntriesUpTo, BodyUpTo, Trailer, FreeEntry, XrefHead;
    var body := BodyUpTo(objects, |objects|);
    var table := XrefHead() + Decimal(|objects| + 1) + ("\n" + FreeEntry() + EntriesUpTo(objects, |objects|));
    assert File(objects) == body + table + Trailer(|objects| + 1, |body|);
    StartsAtMiddle(body, table, Trailer(|objects| + 1, |body|));
  }

  lemma BodyFits(objects: seq<string>, k: nat)
    requires k <= |objects|
    ensures |BodyUpTo(objects, k)| <= |File(objects)|
  {
    hide BodyUpTo, EntriesUpTo, Trailer, XrefHead, FreeEntry, Decimal;
    BodyGrows(objects, k, |objects|);
  }

  /** Counting from the line feed that ends the first line, entry i is the i-th block of 20. */
  lemma EntryInTable(objects: seq<string>, i: nat)
    requires 1 <= i <= |objects| && |BodyUpTo(objects, |objects|)| < 10000000000
    ensures StartsAt("\n" + FreeEntry() + EntriesUpTo(objects, |objects|), 1 + 20 * i, Entry(|BodyUpTo(objects, i - 1)|))
    ensures StartsAt("\n" + FreeEntry() + EntriesUpTo(objects, |objects|), 0, "\n")
  {
    hide BodyUpTo, EntriesUpTo, Entry, StartsAt, FreeEntry;
    var free, entries := FreeEntry(), EntriesUpTo(objects, |objects|);
    var head := "\n" + free;
    FreeEntryLength();
    EntriesAreAligned(objects, i, |objects|);
    assert head + entries + "" == head + entries;
    StartsAtMiddle(head, entries, "");
    StartsAtNested(head + entries, 21, entries, 20 * (i - 1), Entry(|BodyUpTo(objects, i - 1)|));
    assert "" + "\n" + (free + entries) == head + entries;
    StartsAtMiddle("", "\n", free + entries);
  }

  lemma FreeEntryLength()
    ensures |FreeEntry()| == 20
  {
  }

  lemma EntryInFile(objects: seq<string>, i: nat, first: nat)
    requires 1 <= i <= |objects| && |File(objects)| < 10000000000
    requires first == |BodyUpTo(objects, |objects|)| + |XrefHead()| + |Decimal(|objects| + 1)| + 1
    ensures StartsAt(File(objects), first - 1, "\n")
    ensures StartsAt(File(objects), first + 20 * i, Entry(|BodyUpTo(objects, i - 1)|))
  {
    hide File, BodyUpTo, EntriesUpTo, Entry, Decimal, XrefHead, FreeEntry, StartsAt;
    var file, xref := File(objects), |BodyUpTo(objects, |objects|)|;
    var lines := "\n" + FreeEntry() + EntriesUpTo(objects, |objects|);
    var head := XrefHead() + Decimal(|objects| + 1);
    TableInFile(objects);
    BodyFits(objects, |objects|);
    EntryInTable(objects, i);
    assert StartsAt(file, xref + |head|, lines) by {
      assert head + lines + "" == head + lines;
      StartsAtPart(file, xref, head, lines, "");
    }
    StartsAtNested(file, xref + |head|, lines, 0, "\n");
    StartsAtNested(file, xref + |head|, lines, 1 + 20 * i, Entry(|BodyUpTo(objects, i - 1)|));
  }

  lemma EntrySplits(file: string, at: nat, offset: nat)
    requires StartsAt(file, at, Entry(offset)) && offset < 10000000000
    ensures at + 10 <= |file| && AllDigits(file[at..at + 10]) && Parse(file[at..at + 10]) == offset
    ensures StartsAt(file, at + 10, EntryTail())
  {
    hide Padded, Parse;
    PaddedReadsBack(offset);
    assert Entry(offset) == "" + Padded(offset) + EntryTail();
    StartsAtPart(file, at, "", Padded(offset), EntryTail());
    assert Entry(offset) == Padded(offset) + EntryTail() + "";
    StartsAtPart(file, at, Padded(offset), EntryTail(), "");
  }

  /** Main result: for files under 10^10 bytes, entry i of the table found through `startxref`
      holds the offset at which object i begins. */
  lemma ObjectsAreLocated(objects: seq<string>, i: nat)
    requires 1 <= i <= |objects| && |File(objects)| < 10000000000
    ensures FindXref(File(objects)).Some?
    ensures Locate(File(objects), FindXref(File(objects)).value, i) == Some(|BodyUpTo(objects, i - 1)|)
  {
    hide Decimal, EntriesUpTo, BodyUpTo, XrefHead, ObjectHead, ObjectTail, EntryTail, NumberAt, File, FindXref, Parse, StartsAt, Entry, FreeEntry, XrefMark, InUseMark, ObjectMark, LengthMark, StreamMark, EndStreamMark, ShowMark, EndShowMark;
    SameMarks();
    var file, xref, n := File(objects), |BodyUpTo(objects, |objects|)|, |objects|;
    var offset := |BodyUpTo(objects, i - 1)|;
    var first := xref + |XrefHead()| + |Decimal(n + 1)| + 1;
    XrefIsFound(objects);
    BodyFits(objects, i - 1);
    SizeIsRead(objects);
    EntryInFile(objects, i, first);
    EntrySplits(file, first + 20 * i, offset);
    ObjectInFile(objects, i);
    assert ObjectHead(i) + objects[i - 1] + ObjectTail() == "" + ObjectHead(i) + (objects[i - 1] + ObjectTail());
    StartsAtPart(file, offset, "", ObjectHead(i), objects[i - 1] + ObjectTail());
  }

  lemma SizeIsRead(objects: seq<string>)
    ensures var file, xref := File(objects), |BodyUpTo(objects, |objects|)|;
            && StartsAt(file, xref, XrefHead())
            && NumberAt(file, xref + |XrefHead()|) == Some((|Decimal(|objects| + 1)|, |objects| + 1))
  {
    hide File, BodyUpTo, EntriesUpTo, FreeEntry, XrefHead, StartsAt, NumberAt, Decimal;
    var file, xref, n := File(objects), |BodyUpTo(objects, |objects|)|, |objects|;
    var lines := "\n" + FreeEntry() + EntriesUpTo(objects, n);
    TableInFile(objects);
    NumberAtPart(file, xref, XrefHead(), n + 1, lines);
    assert "" + XrefHead() + (Decimal(n + 1) + lines) == XrefHead() + Decimal(n + 1) + lines;
    StartsAtPart(file, xref, "", XrefHead(), Decimal(n + 1) + lines);
  }

  // ---------------------------------------------------------------- the stream and its text

  lemma StreamIsRead(file: string, at: nat, stream: string)
    requires StartsAt(file, at, StreamObject(stream) + ObjectTail())
    ensures ReadStream(file, at) == Some(stream)
  {
    hide Decimal, StartsAt, NumberAt, LengthHead, StreamTail, ObjectTail, XrefMark, InUseMark, ObjectMark, LengthMark, StreamMark, EndStreamMark, ShowMark, EndShowMark;
    SameMarks();
    var d, tail := Decimal(|stream|), StreamTail() + ObjectTail();
    var whole := StreamObject(stream) + ObjectTail();
    var after := StreamHead() + (stream + tail);
    assert whole == LengthHead() + d + after;
    NumberAtPart(file, at, LengthHead(), |stream|, after);
    assert whole == "" + LengthHead() + (d + after);
    StartsAtPart(file, at, "", LengthHead(), d + after);
    assert whole == (LengthHead() + d) + StreamHead() + (stream + tail);
    StartsAtPart(file, at, LengthHead() + d, StreamHead(), stream + tail);
    var start := at + |LengthHead()| + |d| + |StreamHead()|;
    assert whole == (LengthHead() + d + StreamHead()) + stream + tail;
    StartsAtPart(file, at, LengthHead() + d + StreamHead(), stream, tail);
    StreamSlice(file, start, stream);
    assert whole == (LengthHead() + d + StreamHead() + stream) + tail + "";
    StartsAtPart(file, at, LengthHead() + d + StreamHead() + stream, tail, "");
  }

  lemma StreamSlice(file: string, at: nat, s: string)
    requires StartsAt(file, at, s)
    ensures at + |s| <= |file| && file[at..at + |s|] == s
  {
  }

  lemma ContentIsRead(text: string)
    ensures ReadContent(Content(text)) == Some(Normalize(text))
  {
    hide Escape, ReadLiteral, Normalize, ContentHead, ContentTail, XrefMark, InUseMark, ObjectMark, LengthMark, StreamMark, EndStreamMark, ShowMark, EndShowMark;
    SameMarks();
    var content := Content(text);
    LiteralRoundTrip(text, ContentTail());
    assert content == ContentHead() + (Escape(text) + ")" + ContentTail());
    assert content[|ContentHead()|..] == Escape(text) + ")" + ContentTail();
    assert content[0..|ContentHead()|] == ContentHead();
  }

  lemma StreamIsFifth(text: string)
    ensures var objects := Objects(text);
            |objects| == 5 && objects[4] == StreamObject(Content(text))
  {
    hide Content, StreamObject, Catalog, Pages, Page, Font;
  }

  /** Main result: the file reads back. For ASCII text and a file under 10^10 bytes, following
      `startxref`, the table, object 5 and its `/Length` leads to a content stream whose literal
      string is the text with ends of line normalized: the text itself exactly when it has no
      carriage return. */
  lemma TextReadsBack(text: string)
    requires |File(Objects(text))| < 10000000000
    ensures ReadText(File(Objects(text)), 5) == Some(Normalize(text))
    ensures Normalize(text) == text <==> '\r' !in text
  {
    hide Objects, File, BodyUpTo, FindXref, Locate, ReadStream, ReadContent, Content, StreamObject, ObjectHead, ObjectTail, StartsAt, Normalize, XrefMark, InUseMark, ObjectMark, LengthMark, StreamMark, EndStreamMark, ShowMark, EndShowMark;
    SameMarks();
    StreamIsFifth(text);
    var objects := Objects(text);
    var file, at := File(objects), |BodyUpTo(objects, 4)|;
    var obj := StreamObject(Content(text));
    ObjectsAreLocated(objects, 5);
    ObjectInFile(objects, 5);
    assert ObjectHead(5) + obj + ObjectTail() == ObjectHead(5) + (obj + ObjectTail()) + "";
    StartsAtPart(file, at, ObjectHead(5), obj + ObjectTail(), "");
    StreamIsRead(file, at + |ObjectHead(5)|, Content(text));
    ContentIsRead(text);
    LiteralRoundTrip(text, "");
  }
}
