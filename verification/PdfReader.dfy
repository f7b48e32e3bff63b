/** A reader that follows the file structure of ISO 32000-1, section 7.5: from the end of the file to
    the cross-reference table and the trailer, from there along the references of the document
    catalog (section 7.7) to the page, its font and its contents. It knows the keywords and spacing of
    the format, but no offset, length or object number. */
module PdfReader {
  import opened Wrappers
  import opened Decimals
  import opened PdfStrings

  function EofMark(): string { "\n%%EOF\n" }
  function StartMark(): string { "startxref\n" }
  function XrefMark(): string { "xref\n0 " }
  function InUseMark(): string { " 00000 n \n" }
  function ObjectMark(i: nat): string { Decimal(i) + " 0 obj\n" }
  function LengthMark(): string { "<< /Length " }
  function StreamMark(): string { " >>\nstream\n" }
  function EndStreamMark(): string { "\nendstream\nendobj\n" }
  function FreeMark(): string { "0000000000 65535 f \n" }
  function SizeMark(): string { "trailer\n<< /Size " }
  function RootMark(): string { " /Root " }
  function TrailerEnd(): string { " 0 R >>\n" }
  function CatalogMark(): string { "<< /Type /Catalog /Pages " }
  function PagesMark(): string { "<< /Type /Pages /Kids [" }
  function KidsEnd(): string { " 0 R] /Count 1 >>" }
  function PageMark(): string { "<< /Type /Page /Parent " }
  function BoxMark(): string { " 0 R /MediaBox [0 0 612 792] " }
  function FontsMark(): string { "/Resources << /Font << /F1 " }
  function ContentsMark(): string { " 0 R >> >> /Contents " }
  function DictEnd(): string { " 0 R >>" }
  function FontText(): string { "<< /Type /Font /Subtype /Type1 /BaseFont /Helvetica >>" }
  function ObjectEnd(): string { "\nendobj\n" }
  function ShowMark(): string { "BT /F1 24 Tf 72 720 Td (" }
  function EndShowMark(): string { " Tj ET" }

  predicate StartsAt(file: string, at: nat, s: string) {
    at + |s| <= |file| && file[at..at + |s|] == s
  }

  predicate EndsWith(file: string, s: string) {
    |s| <= |file| && file[|file| - |s|..] == s
  }

  /** The number written at a position: its length and its value. */
  function NumberAt(file: string, at: nat): Option<(nat, nat)> {
    if at > |file| then None else
      var k := LeadingDigits(file[at..]);
      if k == 0 then None else Some((k, Parse(file[at..][..k])))
  }

  function TrailingDigits(s: string): (k: nat)
    ensures k <= |s| && AllDigits(s[|s| - k..])
  {
    if s == "" || !IsDigit(s[|s| - 1]) then 0 else
      var k := TrailingDigits(s[..|s| - 1]);
      assert s[|s| - (k + 1)..] == s[..|s| - 1][|s| - 1 - k..] + [s[|s| - 1]];
      k + 1
  }

  /** Section 7.5.5: the last line but one holds the byte offset of the cross-reference table. */
  function FindXref(file: string): Option<nat> {
    if !EndsWith(file, EofMark()) then None else
      var lines := file[..|file| - |EofMark()|];
      var k := TrailingDigits(lines);
      if k == 0 || !EndsWith(lines[..|lines| - k], StartMark()) then None
      else Some(Parse(lines[|lines| - k..]))
  }

  /** Section 7.5.4: each entry is 20 bytes, ten digits of byte offset first. */
  function Locate(file: string, xref: nat, i: nat): Option<nat> {
    if !StartsAt(file, xref, XrefMark()) then None
    else match NumberAt(file, xref + |XrefMark()|)
         case None => None
         case Some((k, size)) =>
           var first := xref + |XrefMark()| + k + 1;
           var entry := first + 20 * i;
           if i >= size || !StartsAt(file, first - 1, "\n") || !StartsAt(file, entry + 10, InUseMark())
              || !AllDigits(file[entry..entry + 10]) then None
           else
             var offset := Parse(file[entry..entry + 10]);
             if StartsAt(file, offset, ObjectMark(i)) then Some(offset) else None
  }

  /** Section 7.3.8: a stream is as many bytes as its `/Length` says. */
  function ReadStream(file: string, at: nat): Option<string> {
    if !StartsAt(file, at, LengthMark()) then None
    else match NumberAt(file, at + |LengthMark()|)
         case None => None
         case Some((k, length)) =>
           var start := at + |LengthMark()| + k + |StreamMark()|;
           if !StartsAt(file, start - |StreamMark()|, StreamMark()) || !StartsAt(file, start + length, EndStreamMark())
           then None
           else Some(file[start..start + length])
  }

  function ReadContent(stream: string): Option<string> {
    if !StartsAt(stream, 0, ShowMark()) then None
    else match ReadLiteral(stream[|ShowMark()|..], 0)
         case None => None
         case Some(literal) => if literal.rest == EndShowMark() then Some(literal.text) else None
  }

  /** The text of object i, found from the end of the file. */
  function ReadText(file: string, i: nat): Option<string> {
    match FindXref(file)
    case None => None
    case Some(xref) =>
      match Locate(file, xref, i)
      case None => None
      case Some(at) =>
        match ReadStream(file, at + |ObjectMark(i)|)
        case None => None
        case Some(stream) => ReadContent(stream)
  }

  /** A number between two keywords: its value, and where the text goes on. */
  function ReadNumber(file: string, at: nat, before: string, after: string): Option<(nat, nat)> {
    if !StartsAt(file, at, before) then None
    else match NumberAt(file, at + |before|)
         case None => None
         case Some((k, n)) =>
           var next := at + |before| + k;
           if StartsAt(file, next, after) then Some((n, next + |after|)) else None
  }

  /** Where the text of object i begins, found from the end of the file. */
  function ObjectAt(file: string, i: nat): Option<nat> {
    match FindXref(file)
    case None => None
    case Some(xref) =>
      match Locate(file, xref, i)
      case None => None
      case Some(at) => Some(at + |ObjectMark(i)|)
  }

  /** Sections 7.5.4 and 7.5.5: the table begins with the free entry; the trailer stands behind as many
      entries as the table has and names that number and the catalog. */
  function ReadRoot(file: string): Option<nat> {
    match FindXref(file)
    case None => None
    case Some(xref) =>
      match NumberAt(file, xref + |XrefMark()|)
      case None => None
      case Some((k, size)) =>
        match ReadNumber(file, xref + |XrefMark()| + k + 1 + 20 * size, SizeMark(), RootMark())
        case None => None
        case Some((n, next)) =>
          match ReadNumber(file, next, "", TrailerEnd())
          case None => None
          case Some((root, _)) => if n == size && StartsAt(file, xref + |XrefMark()| + k + 1, FreeMark()) then Some(root) else None
  }

  /** A number between two keywords in an object. */
  function ReadInObject(file: string, i: nat, before: string, after: string): Option<(nat, nat)> {
    match ObjectAt(file, i)
    case None => None
    case Some(at) => ReadNumber(file, at, before, after)
  }

  /** What a page refers to: its parent, its font F1 and its contents. */
  datatype PageRefs = PageRefs(parent: nat, font: nat, contents: nat)

  function ReadPage(file: string, i: nat): Option<PageRefs> {
    match ReadInObject(file, i, PageMark(), BoxMark() + FontsMark())
    case None => None
    case Some((parent, next)) =>
      match ReadNumber(file, next, "", ContentsMark())
      case None => None
      case Some((font, next)) =>
        match ReadNumber(file, next, "", DictEnd() + ObjectEnd())
        case None => None
        case Some((contents, _)) => Some(PageRefs(parent, font, contents))
  }

  /** The text a viewer shows: from the trailer to the catalog, its page tree, the one page, and the
      contents of that, drawn in a standard font. */
  function ReadDocument(file: string): Option<string> {
    match ReadRoot(file)
    case None => None
    case Some(root) =>
      match ReadInObject(file, root, CatalogMark(), DictEnd() + ObjectEnd())
      case None => None
      case Some((pages, _)) =>
        match ReadInObject(file, pages, PagesMark(), KidsEnd() + ObjectEnd())
        case None => None
        case Some((page, _)) =>
          match ReadPage(file, page)
          case None => None
          case Some(refs) =>
            match ObjectAt(file, refs.font)
            case None => None
            case Some(font) =>
              if refs.parent == pages && StartsAt(file, 0, "%PDF-1.4\n") && StartsAt(file, font, FontText() + ObjectEnd())
              then ReadText(file, refs.contents) else None
  }
}
