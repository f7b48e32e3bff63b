/** The file is a document: whoever follows its references from the trailer arrives at the text. */
module PdfDocument {
  import opened Wrappers
  import opened Decimals
  import opened PdfStrings
  import opened PdfWriter
  import opened PdfReader
  import opened PdfReadBack

  lemma NumberIsRead(file: string, at: nat, before: string, n: nat, after: string)
    requires StartsAt(file, at, before + Decimal(n) + after) && after != "" && !IsDigit(after[0])
    ensures ReadNumber(file, at, before, after) == Some((n, at + |before| + |Decimal(n)| + |after|))
  {
    hide Decimal, StartsAt, NumberAt;
    NumberAtPart(file, at, before, n, after);
    assert before + Decimal(n) + after == "" + before + (Decimal(n) + after);
    StartsAtPart(file, at, "", before, Decimal(n) + after);
    assert before + Decimal(n) + after == (before + Decimal(n)) + after + "";
    StartsAtPart(file, at, before + Decimal(n), after, "");
  }

  lemma ObjectText(objects: seq<string>, i: nat)
    requires 1 <= i <= |objects| && |File(objects)| < 10000000000
    ensures ObjectAt(File(objects), i).Some?
    ensures StartsAt(File(objects), ObjectAt(File(objects), i).value, objects[i - 1] + ObjectEnd())
  {
    hide File, BodyUpTo, FindXref, Locate, ObjectHead, ObjectMark, ObjectTail, ObjectEnd, StartsAt;
    SameMarks();
    SameEnds();
    var file, at := File(objects), |BodyUpTo(objects, i - 1)|;
    ObjectsAreLocated(objects, i);
    ObjectInFile(objects, i);
    assert ObjectHead(i) + objects[i - 1] + ObjectTail() == ObjectHead(i) + (objects[i - 1] + ObjectTail()) + "";
    StartsAtPart(file, at, ObjectHead(i), objects[i - 1] + ObjectTail(), "");
  }

  lemma SameEnds()
    ensures ObjectEnd() == ObjectTail()
  {
  }

  lemma SmallDecimals()
    ensures Decimal(1) == "1" && Decimal(2) == "2" && Decimal(3) == "3" && Decimal(4) == "4" && Decimal(5) == "5"
  {
  }

  /** The texts of the objects, as keywords and numbers. */
  lemma CatalogParts()
    ensures Catalog() + ObjectEnd() == CatalogMark() + Decimal(2) + (DictEnd() + ObjectEnd())
    ensures Pages() + ObjectEnd() == PagesMark() + Decimal(3) + (KidsEnd() + ObjectEnd())
    ensures DictEnd() != "" && KidsEnd() != ""
    ensures !IsDigit((DictEnd() + ObjectEnd())[0]) && !IsDigit((KidsEnd() + ObjectEnd())[0])
  {
    hide ObjectEnd, Decimal;
    SmallDecimals();
    assert CatalogMark() + "2" + DictEnd() + ObjectEnd() == CatalogMark() + "2" + (DictEnd() + ObjectEnd());
    assert PagesMark() + "3" + KidsEnd() + ObjectEnd() == PagesMark() + "3" + (KidsEnd() + ObjectEnd());
    assert DictEnd()[0] == ' ' && KidsEnd()[0] == ' ';
  }

  lemma PageParts()
    ensures Page() + ObjectEnd()
            == PageMark() + Decimal(2) + (BoxMark() + FontsMark()) + (Decimal(4) + ContentsMark()) + (Decimal(5) + (DictEnd() + ObjectEnd()))
    ensures BoxMark() != "" && ContentsMark() != "" && DictEnd() != ""
    ensures !IsDigit((BoxMark() + FontsMark())[0]) && !IsDigit(ContentsMark()[0]) && !IsDigit((DictEnd() + ObjectEnd())[0])
  {
    hide ObjectEnd, Decimal;
    SmallDecimals();
    var b, f, c, e, o := BoxMark(), FontsMark(), ContentsMark(), DictEnd(), ObjectEnd();
    assert Page() == PageMark() + "2" + b + f + "4" + c + "5" + e;
    Regroup(PageMark() + "2", b, f, "4", c, "5", e, o);
    assert b[0] == ' ' && c[0] == ' ' && e[0] == ' ';
  }

  lemma Regroup(p: string, b: string, f: string, x: string, c: string, y: string, e: string, o: string)
    ensures p + b + f + x + c + y + e + o == p + (b + f) + (x + c) + (y + (e + o))
  {
  }

  lemma PageIsRead(objects: seq<string>)
    requires |objects| == 5 && objects[2] == Page() && |File(objects)| < 10000000000
    ensures ReadPage(File(objects), 3) == Some(PageRefs(2, 4, 5))
  {
    hide File, ObjectAt, StartsAt, Decimal, Page, ObjectEnd, PageMark, BoxMark, FontsMark, ContentsMark, DictEnd, ReadNumber;
    var file := File(objects);
    ObjectText(objects, 3);
    PageParts();
    var at := ObjectAt(file, 3).value;
    var first, second, third := PageMark() + Decimal(2) + (BoxMark() + FontsMark()), Decimal(4) + ContentsMark(), Decimal(5) + (DictEnd() + ObjectEnd());
    assert first + second + third == "" + first + (second + third);
    StartsAtPart(file, at, "", first, second + third);
    NumberIsRead(file, at, PageMark(), 2, BoxMark() + FontsMark());
    StartsAtPart(file, at, first, second, third);
    assert second == "" + Decimal(4) + ContentsMark();
    NumberIsRead(file, at + |first|, "", 4, ContentsMark());
    assert first + second + third == (first + second) + third + "";
    StartsAtPart(file, at, first + second, third, "");
    assert third == "" + Decimal(5) + (DictEnd() + ObjectEnd());
    NumberIsRead(file, at + |first + second|, "", 5, DictEnd() + ObjectEnd());
  }

  /** Where the file has its trailer. */
  lemma TrailerInFile(objects: seq<string>)
    requires |File(objects)| < 10000000000 && objects != []
    ensures var n, xref := |objects|, |BodyUpTo(objects, |objects|)|;
            StartsAt(File(objects), xref + |XrefHead()| + |Decimal(n + 1)| + 1 + 20 * (n + 1), Trailer(n + 1, xref))
  {
    hide BodyUpTo, EntriesUpTo, Trailer, XrefHead, FreeEntry, Decimal, StartsAt;
    var n, body := |objects|, BodyUpTo(objects, |objects|);
    BodyFits(objects, n);
    EntriesAreAligned(objects, n, n);
    FreeEntryLength();
    var head := body + (XrefHead() + Decimal(n + 1) + "\n") + FreeEntry() + EntriesUpTo(objects, n);
    assert File(objects) == head + Trailer(n + 1, |body|) + "";
    StartsAtMiddle(head, Trailer(n + 1, |body|), "");
  }

  lemma FreeInFile(objects: seq<string>)
    ensures StartsAt(File(objects), |BodyUpTo(objects, |objects|)| + |XrefHead()| + |Decimal(|objects| + 1)| + 1, FreeMark())
  {
    hide BodyUpTo, EntriesUpTo, Trailer, XrefHead, FreeEntry, FreeMark, Decimal, StartsAt;
    SameFree();
    var n, body := |objects|, BodyUpTo(objects, |objects|);
    var head, rest := body + (XrefHead() + Decimal(n + 1) + "\n"), EntriesUpTo(objects, n) + Trailer(n + 1, |body|);
    assert File(objects) == head + FreeEntry() + rest;
    StartsAtMiddle(head, FreeEntry(), rest);
  }

  lemma SameFree()
    ensures FreeMark() == FreeEntry()
  {
  }

  lemma TrailerParts(size: nat, xref: nat)
    ensures Trailer(size, xref) == SizeMark() + Decimal(size) + RootMark() + (Decimal(1) + TrailerEnd())
                                   + (StartXref() + Decimal(xref) + EndOfFile())
    ensures RootMark() != "" && !IsDigit(RootMark()[0]) && TrailerEnd() != "" && !IsDigit(TrailerEnd()[0])
  {
    hide Decimal, StartXref, EndOfFile;
    SmallDecimals();
    var s, r, t := SizeMark() + Decimal(size), RootMark(), TrailerEnd();
    assert Trailer(size, xref) == s + r + "1" + t + StartXref() + Decimal(xref) + EndOfFile();
    assert s + r + "1" + t + StartXref() + Decimal(xref) + EndOfFile()
        == s + r + ("1" + t) + (StartXref() + Decimal(xref) + EndOfFile());
    assert r[0] == ' ' && t[0] == ' ';
  }

  lemma RootIsRead(objects: seq<string>)
    requires |File(objects)| < 10000000000 && objects != []
    ensures ReadRoot(File(objects)) == Some(1)
  {
    hide File, BodyUpTo, Decimal, StartsAt, Trailer, SizeMark, RootMark, TrailerEnd, StartXref, EndOfFile, XrefHead, XrefMark, FindXref, NumberAt, ReadNumber, FreeMark;
    SameMarks();
    var file, n, xref := File(objects), |objects|, |BodyUpTo(objects, |objects|)|;
    XrefIsFound(objects);
    SizeIsRead(objects);
    TrailerInFile(objects);
    FreeInFile(objects);
    TrailerParts(n + 1, xref);
    var at := xref + |XrefHead()| + |Decimal(n + 1)| + 1 + 20 * (n + 1);
    var first, second, rest := SizeMark() + Decimal(n + 1) + RootMark(), Decimal(1) + TrailerEnd(), StartXref() + Decimal(xref) + EndOfFile();
    assert first + second + rest == "" + first + (second + rest);
    StartsAtPart(file, at, "", first, second + rest);
    NumberIsRead(file, at, SizeMark(), n + 1, RootMark());
    StartsAtPart(file, at, first, second, rest);
    assert second == "" + Decimal(1) + TrailerEnd();
    NumberIsRead(file, at + |first|, "", 1, TrailerEnd());
  }

  lemma FiveObjects(text: string)
    ensures var objects := Objects(text);
            |objects| == 5 && objects[0] == Catalog() && objects[1] == Pages() && objects[2] == Page() && objects[3] == Font()
  {
    hide Catalog, Pages, Page, Font, StreamObject, Content;
  }

  lemma FontIs()
    ensures Font() == FontText()
  {
  }

  lemma HeaderIsFirst(objects: seq<string>)
    ensures StartsAt(File(objects), 0, "%PDF-1.4\n")
  {
    hide StartsAt, EntriesUpTo, Trailer, XrefHead, FreeEntry, Decimal;
    BodyGrows(objects, 0, |objects|);
    HeaderStarts(objects);
  }

  lemma HeaderStarts(objects: seq<string>)
    requires BodyUpTo(objects, 0) == BodyUpTo(objects, |objects|)[..|BodyUpTo(objects, 0)|]
    requires |BodyUpTo(objects, 0)| <= |BodyUpTo(objects, |objects|)|
    ensures StartsAt(File(objects), 0, "%PDF-1.4\n")
  {
    hide EntriesUpTo, Trailer, XrefHead, FreeEntry, Decimal;
    var body := BodyUpTo(objects, |objects|);
    assert BodyUpTo(objects, 0) == "%PDF-1.4\n";
    assert File(objects)[..|body|] == body;
  }

  /** Main result: the file is a document. For ASCII text and a file under 10^10 bytes, a reader that
      knows no offset, length or object number gets from the end of the file to the text, ends of line
      normalized: over the trailer, the catalog, the page tree, and the page with its font and its
      contents. */
  lemma DocumentReadsBack(text: string)
    requires |File(Objects(text))| < 10000000000
    ensures ReadDocument(File(Objects(text))) == Some(Normalize(text))
  {
    hide Objects, File, Normalize, StartsAt, ReadNumber, ReadPage, ReadRoot, ReadText, ObjectAt, Decimal, FontText, ObjectEnd, CatalogMark, PagesMark, DictEnd, KidsEnd, Catalog, Pages, Page, Font;
    FiveObjects(text);
    var objects := Objects(text);
    var file := File(objects);
    RootIsRead(objects);
    CatalogParts();
    ObjectText(objects, 1);
    NumberIsRead(file, ObjectAt(file, 1).value, CatalogMark(), 2, DictEnd() + ObjectEnd());
    ObjectText(objects, 2);
    NumberIsRead(file, ObjectAt(file, 2).value, PagesMark(), 3, KidsEnd() + ObjectEnd());
    PageIsRead(objects);
    ObjectText(objects, 4);
    FontIs();
    HeaderIsFirst(objects);
    TextReadsBack(text);
  }
}
