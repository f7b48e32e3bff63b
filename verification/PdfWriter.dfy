/** The minimal text PDF of `local_pilot_console_e2e.py`, byte by byte. Bytes are characters below
    128. */
module PdfWriter {
  import opened Wrappers
  import opened Decimals
  import opened PdfStrings

  predicate IsAscii(s: string) {
    forall i :: 0 <= i < |s| ==> s[i] < 128 as char
  }

  // ---------------------------------------------------------------- what is written

  function Header(): string { "%PDF-1.4\n" }
  function ObjectHead(i: nat): string { Decimal(i) + " 0 obj\n" }
  function ObjectTail(): string { "\nendobj\n" }
  function XrefHead(): string { "xref\n0 " }
  function FreeEntry(): string { "0000000000 65535 f \n" }
  function EntryTail(): string { " 00000 n \n" }
  function StartXref(): string { "startxref\n" }
  function EndOfFile(): string { "\n%%EOF\n" }
  function ContentHead(): string { "BT /F1 24 Tf 72 720 Td (" }
  function ContentTail(): string { " Tj ET" }
  function LengthHead(): string { "<< /Length " }
  function StreamHead(): string { " >>\nstream\n" }
  function StreamTail(): string { "\nendstream" }

  function Content(text: string): string {
    ContentHead() + Escape(text) + ")" + ContentTail()
  }

  function StreamObject(stream: string): string {
    LengthHead() + Decimal(|stream|) + StreamHead() + stream + StreamTail()
  }

  function Catalog(): string { "<< /Type /Catalog /Pages " + "2" + " 0 R >>" }
  function Pages(): string { "<< /Type /Pages /Kids [" + "3" + " 0 R] /Count 1 >>" }
  function Page(): string {
    "<< /Type /Page /Parent " + "2" + " 0 R /MediaBox [0 0 612 792] "
    + "/Resources << /Font << /F1 " + "4" + " 0 R >> >> /Contents " + "5" + " 0 R >>"
  }
  function Font(): string { "<< /Type /Font /Subtype /Type1 /BaseFont /Helvetica >>" }

  function Objects(text: string): seq<string> {
    [Catalog(), Pages(), Page(), Font(), StreamObject(Content(text))]
  }

  /** The file up to and including its first k objects. */
  function BodyUpTo(objects: seq<string>, k: nat): string
    requires k <= |objects|
  {
    if k == 0 then Header() else BodyUpTo(objects, k - 1) + (ObjectHead(k) + objects[k - 1] + ObjectTail())
  }

  function Entry(offset: nat): string {
    Padded(offset) + EntryTail()
  }

  function EntriesUpTo(objects: seq<string>, k: nat): string
    requires k <= |objects|
  {
    if k == 0 then "" else EntriesUpTo(objects, k - 1) + Entry(|BodyUpTo(objects, k - 1)|)
  }

  function Trailer(size: nat, xref: nat): string {
    "trailer\n<< /Size " + Decimal(size) + " /Root " + "1" + " 0 R >>\n" + StartXref() + Decimal(xref) + EndOfFile()
  }

  function File(objects: seq<string>): string {
    var body := BodyUpTo(objects, |objects|);
    body + (XrefHead() + Decimal(|objects| + 1) + "\n") + FreeEntry() + EntriesUpTo(objects, |objects|)
    + Trailer(|objects| + 1, |body|)
  }

  /** `None` stands for the `UnicodeEncodeError` of text that is not ASCII. */
  method WriteMinimalTextPdf(text: string) returns (file: Option<string>)
    ensures file == if IsAscii(text) then Some(File(Objects(text))) else None
  {
    hide Decimal, Padded, Escape, Objects;
    if !IsAscii(text) {
      return None;
    }
    var objects := Objects(text);
    var body := Header();
    var offsets: seq<nat> := [0];
    for i := 0 to |objects|
      invariant body == BodyUpTo(objects, i)
      invariant |offsets| == i + 1
      invariant forall k :: 1 <= k <= i ==> offsets[k] == |BodyUpTo(objects, k - 1)|
    {
      offsets := offsets + [|body|];
      ghost var before := body;
      body := body + ObjectHead(i + 1);
      body := body + objects[i];
      body := body + ObjectTail();
      assert body == before + (ObjectHead(i + 1) + objects[i] + ObjectTail());
    }
    var xrefOffset := |body|;
    body := body + (XrefHead() + Decimal(|objects| + 1) + "\n");
    body := body + FreeEntry();
    ghost var head := body;
    for k := 1 to |offsets|
      invariant body == head + EntriesUpTo(objects, k - 1)
    {
      body := body + Entry(offsets[k]);
      assert head + EntriesUpTo(objects, k - 1) + Entry(offsets[k]) == head + (EntriesUpTo(objects, k - 1) + Entry(offsets[k]));
    }
    body := body + Trailer(|objects| + 1, xrefOffset);
    return Some(body);
  }
}
