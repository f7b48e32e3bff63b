/** The shape of API keys in `auth.py`: how `create_api_key` prints a token and how
    `_parse_api_key_token` takes it apart again. */
module ApiKey {
  import opened Wrappers

  const TOKEN_PREFIX := "rag_live"

  function IndexOf(s: string, c: char): (i: nat)
    requires c in s
    ensures i < |s| && s[i] == c && Plain(s[..i], c)
  {
    if s[0] == c then 0 else
      var i := 1 + IndexOf(s[1..], c);
      assert s[..i] == [s[0]] + s[1..][..i - 1];
      i
  }

  /** Python's `s.split(c, maxsplit)` for a one-character separator and a non-negative maxsplit. */
  function Split(s: string, c: char, maxsplit: nat): (pieces: seq<string>)
    ensures pieces != []
  {
    if maxsplit == 0 || c !in s then [s] else
      var i := IndexOf(s, c);
      [s[..i]] + Split(s[i + 1..], c, maxsplit - 1)
  }

  function Join(pieces: seq<string>, c: char): string
    requires pieces != []
  {
    if |pieces| == 1 then pieces[0] else pieces[0] + [c] + Join(pieces[1..], c)
  }

  predicate Plain(s: string, c: char) {
    c !in s
  }

  /** Only the last piece may hold a separator, and only when every split was used. */
  predicate Separated(pieces: seq<string>, c: char, maxsplit: nat) {
    && 1 <= |pieces| <= maxsplit + 1
    && (forall i :: 0 <= i < |pieces| - 1 ==> Plain(pieces[i], c))
    && (|pieces| <= maxsplit ==> Plain(pieces[|pieces| - 1], c))
  }

  lemma IndexIsFirst(piece: string, c: char, rest: string)
    requires Plain(piece, c)
    ensures c in piece + [c] + rest && IndexOf(piece + [c] + rest, c) == |piece|
  {
    var s := piece + [c] + rest;
    assert s[..|piece|] == piece && s[|piece|] == c;
    FirstIsUnique(s, c, |piece|);
  }

  lemma FirstIsUnique(s: string, c: char, k: nat)
    requires k < |s| && s[k] == c && Plain(s[..k], c)
    ensures IndexOf(s, c) == k
  {
    var i := IndexOf(s, c);
    assert forall j :: 0 <= j < i ==> s[j] in s[..i];
    assert forall j :: 0 <= j < k ==> s[j] in s[..k];
  }

  lemma SeparatedCons(first: string, rest: seq<string>, c: char, maxsplit: nat)
    requires rest != [] && maxsplit > 0
    ensures Separated([first] + rest, c, maxsplit) <==> Plain(first, c) && Separated(rest, c, maxsplit - 1)
  {
    hide Plain;
    var pieces := [first] + rest;
    assert pieces[0] == first && pieces[|rest|] == rest[|rest| - 1];
    assert forall i :: 0 <= i < |rest| ==> rest[i] == pieces[i + 1];
    assert forall i :: 0 < i <= |rest| ==> pieces[i] == rest[i - 1];
  }

  lemma JoinCons(first: string, rest: seq<string>, c: char)
    requires rest != []
    ensures Join([first] + rest, c) == first + [c] + Join(rest, c)
  {
    assert ([first] + rest)[1..] == rest;
  }

  /** Splitting yields a separated decomposition that joins back to the text. */
  lemma {:induction false} SplitSeparates(s: string, c: char, maxsplit: nat)
    ensures Separated(Split(s, c, maxsplit), c, maxsplit) && Join(Split(s, c, maxsplit), c) == s
    decreases maxsplit
  {
    if maxsplit != 0 && c in s {
      hide *;
      var i := IndexOf(s, c);
      var first, rest := s[..i], s[i + 1..];
      assert s == first + [c] + rest;
      SplitSeparates(rest, c, maxsplit - 1);
      SplitStep(first, rest, c, maxsplit);
      SeparatedCons(first, Split(rest, c, maxsplit - 1), c, maxsplit);
      JoinCons(first, Split(rest, c, maxsplit - 1), c);
    } else {
      assert Split(s, c, maxsplit) == [s];
    }
  }

  /** And it is the only one. */
  lemma {:induction false} SeparatedIsSplit(pieces: seq<string>, c: char, maxsplit: nat)
    requires 1 <= |pieces| <= maxsplit + 1 && Separated(pieces, c, maxsplit)
    ensures pieces == Split(Join(pieces, c), c, maxsplit)
    decreases maxsplit
  {
    hide *;
    if |pieces| > 1 {
      var first, rest := pieces[0], pieces[1..];
      assert pieces == [first] + rest;
      SeparatedCons(first, rest, c, maxsplit);
      assert Join(pieces, c) == first + [c] + Join(rest, c) by {
        JoinCons(first, rest, c);
      }
      SeparatedIsSplit(rest, c, maxsplit - 1);
      SplitStep(first, Join(rest, c), c, maxsplit);
    } else {
      SingleIsSplit(pieces, c, maxsplit);
    }
  }

  lemma SingleIsSplit(pieces: seq<string>, c: char, maxsplit: nat)
    requires Separated(pieces, c, maxsplit) && |pieces| == 1
    ensures pieces == Split(Join(pieces, c), c, maxsplit)
  {
    assert maxsplit > 0 ==> Plain(pieces[0], c);
  }

  lemma SplitStep(first: string, rest: string, c: char, maxsplit: nat)
    requires Plain(first, c) && maxsplit > 0
    ensures Split(first + [c] + rest, c, maxsplit) == [first] + Split(rest, c, maxsplit - 1)
  {
    var s := first + [c] + rest;
    IndexIsFirst(first, c, rest);
    assert s[..|first|] == first && s[|first| + 1..] == rest;
  }

  datatype Credentials = Credentials(prefix: string, secret: string)

  function Print(key: Credentials): string {
    TOKEN_PREFIX + "_" + key.prefix + "_" + key.secret
  }

  function Parse(token: string): Option<Credentials> {
    var parts := Split(token, '_', 3);
    if |parts| != 4 || parts[0] != "rag" || parts[1] != "live" then None
    else if parts[2] == "" || parts[3] == "" then None
    else Some(Credentials(parts[2], parts[3]))
  }

  lemma PrintJoins(key: Credentials)
    ensures Print(key) == Join(["rag", "live", key.prefix, key.secret], '_')
  {
    var secret, prefix := [key.secret], [key.prefix, key.secret];
    assert prefix[1..] == secret;
    assert ["live", key.prefix, key.secret][1..] == prefix;
    assert ["rag", "live", key.prefix, key.secret][1..] == ["live", key.prefix, key.secret];
    assert Join(prefix, '_') == key.prefix + "_" + key.secret;
    assert TOKEN_PREFIX + "_" == "rag" + "_" + "live" + "_";
  }

  predicate Printable(key: Credentials) {
    key.prefix != "" && Plain(key.prefix, '_') && key.secret != ""
  }

  lemma KeySeparated(key: Credentials)
    ensures Separated(["rag", "live", key.prefix, key.secret], '_', 3) <==> Plain(key.prefix, '_')
  {
    var pieces := ["rag", "live", key.prefix, key.secret];
    assert pieces[2] == key.prefix;
  }

  lemma ParsedPieces(token: string, key: Credentials)
    ensures Parse(token) == Some(key)
            <==> Split(token, '_', 3) == ["rag", "live", key.prefix, key.secret] && key.prefix != "" && key.secret != ""
  {
    hide Split;
  }

  lemma PrintIs(key: Credentials)
    ensures Print(key) == "rag_live_" + key.prefix + "_" + key.secret
  {
    assert TOKEN_PREFIX + "_" == "rag_live_";
  }

  /** Main result: parsing inverts printing, on exactly the printable credentials. A secret may
      hold underscores; a prefix may not. */
  lemma ParseInvertsPrint(token: string, key: Credentials)
    ensures Parse(token) == Some(key) <==>
              token == "rag_live_" + key.prefix + "_" + key.secret
              && key.prefix != "" && '_' !in key.prefix && key.secret != ""
  {
    PrintIs(key);
    hide Split, Join, Separated, Print, Parse;
    var pieces := ["rag", "live", key.prefix, key.secret];
    PrintJoins(key);
    KeySeparated(key);
    ParsedPieces(token, key);
    SplitSeparates(token, '_', 3);
    if Printable(key) {
      SeparatedIsSplit(pieces, '_', 3);
    }
  }

  predicate HexDigit(c: char) {
    '0' <= c <= '9' || 'a' <= c <= 'f'
  }

  /** Every token handed out parses back, since its prefix is sixteen hexadecimal digits; and
      two tokens are the same text only when their credentials are. */
  lemma IssuedTokensParse(key: Credentials, other: Credentials)
    requires |key.prefix| == 16 && (forall i :: 0 <= i < 16 ==> HexDigit(key.prefix[i])) && key.secret != ""
    requires |other.prefix| == 16 && (forall i :: 0 <= i < 16 ==> HexDigit(other.prefix[i])) && other.secret != ""
    ensures Parse(Print(key)) == Some(key)
    ensures Print(key) == Print(other) ==> key == other
  {
    ParseInvertsPrint(Print(key), key);
    ParseInvertsPrint(Print(other), other);
  }
}
