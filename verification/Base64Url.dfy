/**
  The base64url text that carries mail contents, on bytes: `toBase64` of lib/utils.ts and
  `decodeBase64Url` of composables/useGmailMessages.ts, over the browser's btoa and atob
  (sections 4 and 5 of RFC 4648, with the forgiving decoder of the HTML infra standard).
*/
module Base64Url {
  import opened Wrappers

  type Byte = b: int | 0 <= b < 256
  type Sextet = x: int | 0 <= x < 64

  // ---- the alphabet ----

  function Letter(x: Sextet): (c: char)
    ensures IsLetter(c)
  {
    if x < 26 then ('A' as int + x) as char
    else if x < 52 then ('a' as int + x - 26) as char
    else if x < 62 then ('0' as int + x - 52) as char
    else if x == 62 then '+' else '/'
  }

  predicate IsLetter(c: char) {
    'A' <= c <= 'Z' || 'a' <= c <= 'z' || '0' <= c <= '9' || c == '+' || c == '/'
  }

  function Value(c: char): (x: Sextet)
    requires IsLetter(c)
    ensures Letter(x) == c
  {
    if 'A' <= c <= 'Z' then c as int - 'A' as int
    else if 'a' <= c <= 'z' then c as int - 'a' as int + 26
    else if '0' <= c <= '9' then c as int - '0' as int + 52
    else if c == '+' then 62 else 63
  }

  lemma ValueOfLetter(x: Sextet)
    ensures Value(Letter(x)) == x
  {
  }

  // ---- btoa ----

  /** The bits of the bytes in groups of six, the last one filled up with zeros. */
  function Sextets(b: seq<Byte>): (x: seq<Sextet>)
    ensures |x| % 4 != 1 && |x| == (4 * |b| + 2) / 3
    decreases |b|
  {
    if |b| == 0 then []
    else if |b| == 1 then [b[0] / 4, b[0] % 4 * 16]
    else if |b| == 2 then [b[0] / 4, b[0] % 4 * 16 + b[1] / 16, b[1] % 16 * 4]
    else [b[0] / 4, b[0] % 4 * 16 + b[1] / 16, b[1] % 16 * 4 + b[2] / 64, b[2] % 64] + Sextets(b[3..])
  }

  function Spell(x: seq<Sextet>): (s: string)
    ensures |s| == |x| && forall i :: 0 <= i < |s| ==> s[i] == Letter(x[i])
  {
    seq(|x|, i requires 0 <= i < |x| => Letter(x[i]))
  }

  /** The letters without the padding. */
  function Letters(b: seq<Byte>): string {
    Spell(Sextets(b))
  }

  function Padding(n: nat): string {
    if n % 3 == 0 then "" else if n % 3 == 1 then "==" else "="
  }

  function Btoa(b: seq<Byte>): string {
    Letters(b) + Padding(|b|)
  }

  // ---- toBase64 and decodeBase64Url ----

  function ReplaceAll(s: string, from: char, to: char): (t: string)
    ensures |t| == |s| && forall i :: 0 <= i < |s| ==> t[i] == if s[i] == from then to else s[i]
  {
    seq(|s|, i requires 0 <= i < |s| => if s[i] == from then to else s[i])
  }

  /** The replacement of `=+` at the end by nothing. */
  function StripPadding(s: string): string {
    if s != "" && s[|s| - 1] == '=' then StripPadding(s[..|s| - 1]) else s
  }

  function ToBase64Spec(b: seq<Byte>): string {
    StripPadding(ReplaceAll(ReplaceAll(Btoa(b), '+', '-'), '/', '_'))
  }

  predicate IsSpace(c: char) {
    c == ' ' || c == '\t' || c == '\n' || c == '\r' || c == '\U{000C}'
  }

  function StripSpaces(s: string): (t: string)
    ensures |t| <= |s|
  {
    if s == "" then "" else (if IsSpace(s[0]) then "" else [s[0]]) + StripSpaces(s[1..])
  }

  /** Drops one or two padding characters from a text whose length is a multiple of four. */
  function DropPadding(s: string): string {
    if |s| % 4 == 0 && |s| > 0 && s[|s| - 1] == '=' then
      (if s[|s| - 2] == '=' then s[..|s| - 2] else s[..|s| - 1])
    else s
  }

  function Read(s: string): (x: seq<Sextet>)
    requires forall i :: 0 <= i < |s| ==> IsLetter(s[i])
    ensures |x| == |s| && forall i :: 0 <= i < |s| ==> x[i] == Value(s[i])
  {
    seq(|s|, i requires 0 <= i < |s| => Value(s[i]))
  }

  function First(x: Sextet, y: Sextet): Byte {
    var hi: int := x; hi * 4 + y / 16
  }

  function Second(y: Sextet, z: Sextet): Byte {
    var hi: int := y % 16; hi * 16 + z / 4
  }

  function Third(z: Sextet, w: Sextet): Byte {
    var hi: int := z % 4; hi * 64 + w
  }

  /** The whole bytes in the bits; left-over bits are dropped. */
  function Bytes(x: seq<Sextet>): seq<Byte>
    requires |x| % 4 != 1
    decreases |x|
  {
    if |x| < 2 then []
    else if |x| == 2 then [First(x[0], x[1])]
    else if |x| == 3 then [First(x[0], x[1]), Second(x[1], x[2])]
    else [First(x[0], x[1]), Second(x[1], x[2]), Third(x[2], x[3])] + Bytes(x[4..])
  }

  /** atob: None when the browser throws. */
  function Atob(s: string): Option<seq<Byte>> {
    var t := DropPadding(StripSpaces(s));
    if |t| % 4 == 1 || exists i :: 0 <= i < |t| && !IsLetter(t[i]) then None else Some(Bytes(Read(t)))
  }

  function DecodeBase64Url(data: string): Option<seq<Byte>> {
    Atob(ReplaceAll(ReplaceAll(data, '-', '+'), '_', '/'))
  }

  /** The loop appends one character for each byte; a character code is the byte itself. */
  method ToBase64(bytes: seq<Byte>) returns (out: string)
    ensures out == UrlLetters(Letters(bytes))
    ensures DecodeBase64Url(out) == Some(bytes)
    ensures forall i :: 0 <= i < |out| ==> out[i] !in "+/="
  {
    TextHasNoPadding(bytes);
    DecodeUndoesEncode(bytes);
    var binary: seq<Byte> := [];
    for i := 0 to |bytes|
      invariant binary == bytes[..i]
    {
      binary := binary + [bytes[i]];
    }
    assert binary == bytes;
    out := StripPadding(ReplaceAll(ReplaceAll(Btoa(binary), '+', '-'), '/', '_'));
  }

  // ---- the round trip ----

  /** The sextets of the first three bytes, known only by what the decoder makes of them. */
  lemma FirstBlock(b: seq<Byte>) returns (s0: Sextet, s1: Sextet, s2: Sextet, s3: Sextet)
    requires |b| >= 3
    ensures Sextets(b) == [s0, s1, s2, s3] + Sextets(b[3..])
    ensures First(s0, s1) == b[0] && Second(s1, s2) == b[1] && Third(s2, s3) == b[2]
  {
    s0, s1, s2, s3 := b[0] / 4, b[0] % 4 * 16 + b[1] / 16, b[1] % 16 * 4 + b[2] / 64, b[2] % 64;
  }

  lemma LastTwo(b: seq<Byte>) returns (s0: Sextet, s1: Sextet, s2: Sextet)
    requires |b| == 2
    ensures Sextets(b) == [s0, s1, s2] && First(s0, s1) == b[0] && Second(s1, s2) == b[1]
  {
    s0, s1, s2 := b[0] / 4, b[0] % 4 * 16 + b[1] / 16, b[1] % 16 * 4;
  }

  lemma LastOne(b: seq<Byte>) returns (s0: Sextet, s1: Sextet)
    requires |b| == 1
    ensures Sextets(b) == [s0, s1] && First(s0, s1) == b[0]
  {
    s0, s1 := b[0] / 4, b[0] % 4 * 16;
  }

  lemma {:induction false} BytesUndoSextets(b: seq<Byte>)
    ensures Bytes(Sextets(b)) == b
    decreases |b|
  {
    if |b| >= 3 {
      BytesUndoSextets(b[3..]);
      var s0, s1, s2, s3 := FirstBlock(b);
      assert b == [b[0], b[1], b[2]] + b[3..];
    } else if |b| == 2 {
      var s0, s1, s2 := LastTwo(b);
      assert b == [b[0], b[1]];
    } else if |b| == 1 {
      var s0, s1 := LastOne(b);
      assert b == [b[0]];
    }
  }

  lemma ReadUndoesSpell(x: seq<Sextet>)
    ensures forall i :: 0 <= i < |x| ==> IsLetter(Spell(x)[i])
    ensures Read(Spell(x)) == x
  {
    forall i | 0 <= i < |x| ensures IsLetter(Spell(x)[i]) && Value(Spell(x)[i]) == x[i] {
      ValueOfLetter(x[i]);
    }
  }

  lemma LettersAreLetters(b: seq<Byte>)
    ensures |Letters(b)| % 4 != 1 && forall i :: 0 <= i < |Letters(b)| ==> IsLetter(Letters(b)[i])
    ensures Bytes(Read(Letters(b))) == b
  {
    ReadUndoesSpell(Sextets(b));
    BytesUndoSextets(b);
  }

  function UrlLetters(s: string): (t: string)
    ensures |t| == |s|
  {
    ReplaceAll(ReplaceAll(s, '+', '-'), '/', '_')
  }

  /** The url-safe text is the letters of btoa with two of them exchanged and nothing else: no
      padding is left. */
  lemma TextHasNoPadding(b: seq<Byte>)
    ensures ToBase64Spec(b) == UrlLetters(Letters(b))
    ensures forall i :: 0 <= i < |ToBase64Spec(b)| ==> ToBase64Spec(b)[i] !in "+/="
  {
    LettersAreLetters(b);
    UrlLettersOfPadded(Letters(b), Padding(|b|));
    StripsAllPadding(UrlLetters(Letters(b)), |b|);
  }

  lemma UrlLettersOfPadded(s: string, p: string)
    requires forall i :: 0 <= i < |p| ==> p[i] == '='
    ensures UrlLetters(s + p) == UrlLetters(s) + p
  {
  }

  lemma StripsAllPadding(t: string, n: nat)
    requires forall i :: 0 <= i < |t| ==> t[i] != '='
    ensures StripPadding(t + Padding(n)) == t
  {
    assert t + "" == t && StripPadding(t) == t;
    StripsOne(t);
    StripsOne(t + "=");
    assert t + "=" + "=" == t + "==";
  }

  lemma StripsOne(t: string)
    ensures StripPadding(t + "=") == StripPadding(t)
  {
    assert (t + "=")[..|t + "="| - 1] == t;
  }

  lemma {:induction false} NoSpacesToStrip(s: string)
    requires forall i :: 0 <= i < |s| ==> !IsSpace(s[i])
    ensures StripSpaces(s) == s
  {
    if s == "" {
    } else {
      NoSpacesToStrip(s[1..]);
    }
  }

  lemma UrlLettersAreUndone(s: string)
    requires forall i :: 0 <= i < |s| ==> IsLetter(s[i])
    ensures ReplaceAll(ReplaceAll(UrlLetters(s), '-', '+'), '_', '/') == s
  {
  }

  /** Decoding undoes encoding for every byte sequence. */
  lemma DecodeUndoesEncode(b: seq<Byte>)
    ensures DecodeBase64Url(ToBase64Spec(b)) == Some(b)
  {
    var s := Letters(b);
    LettersAreLetters(b);
    TextHasNoPadding(b);
    UrlLettersAreUndone(s);
    NoSpacesToStrip(s);
    assert DropPadding(s) == s;
    assert Atob(s) == Some(b);
  }

  /** A padded text decodes too: the decoder accepts what btoa itself produces. */
  lemma PaddedTextDecodes(b: seq<Byte>)
    ensures Atob(Btoa(b)) == Some(b)
  {
    var s := Letters(b);
    LettersAreLetters(b);
    NoSpacesToStrip(s + Padding(|b|));
    PaddingIsDropped(s, |b|);
    assert DropPadding(StripSpaces(Btoa(b))) == s;
  }

  lemma {:induction false} StripConcat(s: string, t: string)
    ensures StripSpaces(s + t) == StripSpaces(s) + StripSpaces(t)
  {
    if s == "" {
      assert s + t == t;
    } else {
      assert (s + t)[1..] == s[1..] + t;
      StripConcat(s[1..], t);
    }
  }

  /** White space may stand anywhere. */
  lemma SpacesDoNotCount(s: string, c: char, t: string)
    requires c in [' ', '\t', '\n', '\r', '\U{000C}']
    ensures Atob(s + [c] + t) == Atob(s + t)
  {
    StripConcat(s + [c], t);
    StripConcat(s, [c]);
    StripConcat(s, t);
    assert StripSpaces([c]) == "" && StripSpaces(s) + "" == StripSpaces(s);
  }

  /** The two letters of the url-safe alphabet are no letters of atob. */
  lemma ForeignIsRejected(s: string, i: nat)
    requires i < |s| && s[i] in ['-', '_'] && forall k :: 0 <= k < |s| ==> s[k] != '=' && !IsSpace(s[k])
    ensures Atob(s).None?
  {
    NoSpacesToStrip(s);
    assert DropPadding(s) == s && !IsLetter(s[i]);
  }

  /** Examples of section 10 of RFC 4648, one for each kind of padding. */
  lemma KnownTexts()
    ensures Btoa([102]) == "Zg==" && Btoa([102, 111]) == "Zm8=" && Btoa([102, 111, 111]) == "Zm9v"
  {
    assert Sextets([102, 111, 111]) == [25, 38, 61, 47] + Sextets([]);
  }

  /** The two letters that the url-safe alphabet exchanges. */
  lemma KnownUrlText()
    ensures Btoa([251, 255]) == "+/8=" && ToBase64Spec([251, 255]) == "-_8"
  {
    TextHasNoPadding([251, 255]);
  }

  lemma PaddingIsDropped(s: string, n: nat)
    requires |s| == (4 * n + 2) / 3 && forall i :: 0 <= i < |s| ==> s[i] != '='
    ensures DropPadding(s + Padding(n)) == s
  {
  }

}
