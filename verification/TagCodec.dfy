/**
  The binary tag format of tag/map_codec.go: a version byte, then for each propagated tag a type
  byte and two strings, each after its length as a varint of encoding/binary. The class keeps
  the growing buffer and its two cursors.
*/
module TagCodec {
  import opened Wrappers
  import opened TagMaps
  import opened Powers

  const TAGS_VERSION: Byte := 0
  const KEY_TYPE_STRING: Byte := 0
  const MAX_VARINT_LEN_64: nat := 10

  /** `SliceFails` stands for the run-time failure of a slice whose end lies before its start. */
  datatype DecodeError =
    UnsupportedVersion | InvalidKeyType | UnexpectedEnd | Malformed | SliceFails | BadTag(error: TagError)

  /** Conversion to Go's int, and its addition, wrap around. */
  function Int64(x: int): (y: int)
    ensures -0x8000_0000_0000_0000 <= y < 0x8000_0000_0000_0000
    ensures -0x8000_0000_0000_0000 <= x < 0x8000_0000_0000_0000 ==> y == x
    ensures (x - y) % 0x1_0000_0000_0000_0000 == 0
  {
    var low := x % 0x1_0000_0000_0000_0000;
    if low < 0x8000_0000_0000_0000 then low else low - 0x1_0000_0000_0000_0000
  }

  // ---- varints ----

  function PutUvarint(x: nat): (out: seq<Byte>)
    ensures |out| > 0
  {
    if x < 0x80 then [x] else [x % 0x80 + 0x80] + PutUvarint(x / 0x80)
  }

  /** binary.Uvarint: the value and the number of bytes read, which is 0 when the bytes run out
      and negative when the value does not fit in 64 bits. */
  function Uvarint(buf: seq<Byte>, i: nat, x: nat, scale: nat): (nat, int)
    requires i <= |buf|
    decreases |buf| - i
  {
    if i == |buf| then (0, 0)
    else if buf[i] < 0x80 then
      if i > 9 || (i == 9 && buf[i] > 1) then (0, -(i + 1)) else (x + buf[i] * scale, i + 1)
    else Uvarint(buf, i + 1, x + (buf[i] - 0x80) * scale, scale * 0x80)
  }

  lemma {:induction false} PutUvarintLength(x: nat, k: nat)
    requires k > 0 && x < Pow(0x80, k)
    ensures |PutUvarint(x)| <= k
    decreases k
  {
    if x >= 0x80 {
      assert Pow(0x80, 1) == 0x80 * Pow(0x80, 0);
      PutUvarintLength(x / 0x80, k - 1);
    }
  }

  lemma LengthFitsNineBytes(s: Str)
    ensures |PutUvarint(|s|)| <= 9
  {
    PutUvarintLength(|s|, 9);
  }

  lemma SplitDigit(x: nat, scale: nat)
    ensures x * scale == (x % 0x80) * scale + (x / 0x80) * (scale * 0x80)
  {
    assert x == x % 0x80 + (x / 0x80) * 0x80;
    assert (x / 0x80) * 0x80 * scale == (x / 0x80) * (scale * 0x80);
  }

  /** Reading a written varint gives the value back and stops right after it. */
  lemma {:induction false} UvarintUndoesPut(buf: seq<Byte>, i: nat, acc: nat, scale: nat, x: nat)
    requires i + |PutUvarint(x)| <= |buf|
    requires i + |PutUvarint(x)| <= 9 || (i + |PutUvarint(x)| == 10 && PutUvarint(x)[|PutUvarint(x)| - 1] <= 1)
    requires buf[i..i + |PutUvarint(x)|] == PutUvarint(x)
    ensures Uvarint(buf, i, acc, scale) == (acc + x * scale, i + |PutUvarint(x)|)
    decreases x
  {
    var w := PutUvarint(x);
    assert buf[i] == buf[i..i + |w|][0] == w[0];
    if x >= 0x80 {
      assert PutUvarint(x / 0x80) == w[1..] == buf[i + 1..i + |w|];
      UvarintUndoesPut(buf, i + 1, acc + (x % 0x80) * scale, scale * 0x80, x / 0x80);
      SplitDigit(x, scale);
    }
  }

  lemma {:induction false} LastByteIsSmall(x: nat, k: nat)
    requires k > 0 && |PutUvarint(x)| == k && x < 2 * Pow(0x80, k - 1)
    ensures PutUvarint(x)[k - 1] <= 1
    decreases k
  {
    if x >= 0x80 {
      LastByteIsSmall(x / 0x80, k - 1);
    }
  }

  /** Every 64-bit number is read back. */
  lemma UvarintReadsAll(x: nat)
    requires x < 0x1_0000_0000_0000_0000
    ensures Uvarint(PutUvarint(x), 0, 0, 1) == (x, |PutUvarint(x)|)
  {
    var w := PutUvarint(x);
    PutUvarintLength(x, 10);
    if |w| == 10 {
      LastByteIsSmall(x, 10);
    }
    assert w[0..0 + |w|] == w;
    UvarintUndoesPut(w, 0, 0, 1, x);
  }

  /** A tenth byte that does not fit in 64 bits is refused, and so is an eleventh. */
  lemma {:induction false} OverflowIsRefused(buf: seq<Byte>, i: nat, x: nat, scale: nat)
    requires i <= 9 < |buf| && buf[9] > 1 && forall k :: i <= k < 9 ==> buf[k] >= 0x80
    ensures Uvarint(buf, i, x, scale).1 <= 0
    decreases 9 - i
  {
    if i < 9 {
      OverflowIsRefused(buf, i + 1, x + (buf[i] - 0x80) * scale, scale * 0x80);
    } else if buf[9] >= 0x80 {
      TooLongIsRefused(buf, 10, x + (buf[9] - 0x80) * scale, scale * 0x80);
    }
  }

  lemma {:induction false} TooLongIsRefused(buf: seq<Byte>, i: nat, x: nat, scale: nat)
    requires 9 < i <= |buf|
    ensures Uvarint(buf, i, x, scale).1 <= 0
    decreases |buf| - i
  {
    if i < |buf| && buf[i] >= 0x80 {
      TooLongIsRefused(buf, i + 1, x + (buf[i] - 0x80) * scale, scale * 0x80);
    }
  }

  // ---- the format ----

  function WireString(s: Str): seq<Byte> {
    PutUvarint(|s|) + s
  }

  function WireTag(k: Key, v: Str): seq<Byte> {
    [KEY_TYPE_STRING] + WireString(k.name) + WireString(v)
  }

  function WireTags(m: Tags, order: seq<Key>): seq<Byte>
    requires forall k :: k in order ==> k in m
  {
    if order == [] then []
    else
      assert order[0] in m;
      (if m[order[0]].ttl == UNLIMITED_PROPAGATION then WireTag(order[0], m[order[0]].value) else [])
      + WireTags(m, order[1..])
  }

  /** What Encode produces when the map is ranged over in the given order; a nil map gives nil. */
  function EncodeSpec(m: Option<Tags>, order: seq<Key>): seq<Byte>
    requires m.Some? ==> forall k :: k in order ==> k in m.value
  {
    if m.None? then [] else [TAGS_VERSION] + WireTags(m.value, order)
  }

  function ReadString(buf: seq<Byte>, idx: nat): (r: Result<(seq<Byte>, nat), DecodeError>)
    ensures r.Ok? ==> idx < r.value.1 <= |buf| && |r.value.0| <= |buf|
  {
    if idx >= |buf| then Err(UnexpectedEnd) else
    var (length, n) := Uvarint(buf[idx..], 0, 0, 1);
    if n <= 0 then Err(UnexpectedEnd) else
    var valueStart := idx + n;
    var valueEnd := Int64(valueStart + Int64(length));
    if valueEnd > |buf| then Err(Malformed)
    else if valueEnd < valueStart then Err(SliceFails)
    else Ok((buf[valueStart..valueEnd], valueEnd))
  }

  function DecodeFrom(buf: Str, idx: nat, acc: Tags): Result<Tags, DecodeError>
    decreases |buf| - idx
  {
    if idx >= |buf| then Ok(acc)
    else if buf[idx] != KEY_TYPE_STRING then Err(InvalidKeyType)
    else
      var k := ReadString(buf, idx + 1);
      if k.Err? then Err(k.error) else
      var v := ReadString(buf, k.value.1);
      if v.Err? then Err(v.error) else
      var key := NewKey(k.value.0);
      if key.Err? then Err(BadTag(key.error))
      else if !CheckValue(v.value.0) then Err(BadTag(InvalidValue))
      else DecodeFrom(buf, v.value.1, acc[key.value := TagContent(v.value.0, UNLIMITED_PROPAGATION)])
  }

  function DecodeSpec(buf: Str): Result<Tags, DecodeError> {
    if buf == [] then Ok(map[])
    else if buf[0] > TAGS_VERSION then Err(UnsupportedVersion)
    else DecodeFrom(buf, 1, map[])
  }

  // ---- the round trip ----

  /** The tags that travel: those with unlimited propagation. */
  function Propagated(m: Tags): Tags {
    map k | k in m && m[k].ttl == UNLIMITED_PROPAGATION :: m[k]
  }

  lemma ReadUndoesWrite(buf: Str, idx: nat, s: Str, rest: seq<Byte>)
    requires idx <= |buf| && buf[idx..] == WireString(s) + rest
    ensures ReadString(buf, idx) == Ok((s, idx + |WireString(s)|))
    ensures buf[idx + |WireString(s)|..] == rest
  {
    var w, tail := PutUvarint(|s|), buf[idx..];
    LengthFitsNineBytes(s);
    assert tail[0..0 + |w|] == w;
    UvarintUndoesPut(tail, 0, 0, 1, |s|);
    assert tail[|w|..|w| + |s|] == s;
    assert buf[idx + |w|..idx + |w| + |s|] == tail[|w|..|w| + |s|];
    assert tail[|w| + |s|..] == rest;
  }

  /** The tags among `order` that travel. */
  ghost function TravellingIn(m: Tags, order: seq<Key>): Tags
    requires forall k :: k in order ==> k in m
  {
    map k | k in order && m[k].ttl == UNLIMITED_PROPAGATION :: m[k]
  }

  /** The valid tags among `order` that travel, added to `acc`. */
  ghost function Received(m: Tags, order: seq<Key>, acc: Tags): Tags
    requires forall k :: k in order ==> k in m
  {
    acc + TravellingIn(m, order)
  }

  ghost predicate AllTravelValid(m: Tags, order: seq<Key>)
    requires forall k :: k in order ==> k in m
  {
    forall k :: k in order && m[k].ttl == UNLIMITED_PROPAGATION ==> CheckKeyName(k.name) && CheckValue(m[k].value)
  }

  lemma ReadTag(buf: Str, idx: nat, k: Key, v: Str, rest: seq<Byte>)
    requires idx <= |buf| && buf[idx..] == WireTag(k, v) + rest
    ensures idx < |buf| && buf[idx] == KEY_TYPE_STRING
    ensures ReadString(buf, idx + 1) == Ok((k.name, idx + 1 + |WireString(k.name)|))
    ensures ReadString(buf, idx + 1 + |WireString(k.name)|) == Ok((v, idx + |WireTag(k, v)|))
    ensures buf[idx + |WireTag(k, v)|..] == rest
  {
    var name, value := WireString(k.name), WireString(v);
    assert |WireTag(k, v)| == 1 + |name| + |value|;
    TypeByteFirst(name, value, rest);
    assert buf[idx + 1..] == buf[idx..][1..];
    ReadUndoesWrite(buf, idx + 1, k.name, value + rest);
    ReadUndoesWrite(buf, idx + 1 + |name|, v, rest);
  }

  lemma TypeByteFirst(name: seq<Byte>, value: seq<Byte>, rest: seq<Byte>)
    ensures var all := [KEY_TYPE_STRING] + name + value + rest;
            all[0] == KEY_TYPE_STRING && all[1..] == name + (value + rest)
  {
  }

  lemma DecodeOneTag(buf: Str, idx: nat, k: Key, v: Str, rest: seq<Byte>, acc: Tags)
    requires idx <= |buf| && buf[idx..] == WireTag(k, v) + rest
    ensures idx + |WireTag(k, v)| <= |buf| && buf[idx + |WireTag(k, v)|..] == rest
    ensures if CheckKeyName(k.name) && CheckValue(v)
            then DecodeFrom(buf, idx, acc)
                 == DecodeFrom(buf, idx + |WireTag(k, v)|, acc[k := TagContent(v, UNLIMITED_PROPAGATION)])
            else DecodeFrom(buf, idx, acc).Err?
  {
    ReadTag(buf, idx, k, v, rest);
    DecodeStep(buf, idx, idx + 1 + |WireString(k.name)|, idx + |WireTag(k, v)|, k, v, acc);
  }

  lemma DecodeStep(buf: Str, idx: nat, middle: nat, end: nat, k: Key, v: Str, acc: Tags)
    requires idx < |buf| && buf[idx] == KEY_TYPE_STRING
    requires ReadString(buf, idx + 1) == Ok((k.name, middle)) && ReadString(buf, middle) == Ok((v, end))
    ensures end <= |buf|
    ensures DecodeFrom(buf, idx, acc).Err? || (CheckKeyName(k.name) && CheckValue(v))
    ensures CheckKeyName(k.name) && CheckValue(v) ==>
              DecodeFrom(buf, idx, acc) == DecodeFrom(buf, end, acc[k := TagContent(v, UNLIMITED_PROPAGATION)])
  {
  }

  lemma ReceivedFirst(m: Tags, order: seq<Key>, acc: Tags)
    requires order != [] && forall k :: k in order ==> k in m
    ensures order[0] in m && forall k :: k in order[1..] ==> k in m
    ensures var k := order[0];
            Received(m, order, acc) == Received(m, order[1..], if m[k].ttl == UNLIMITED_PROPAGATION then acc[k := m[k]] else acc)
  {
    assert forall k :: k in order <==> k == order[0] || k in order[1..];
    var k := order[0];
    var all, rest := TravellingIn(m, order), TravellingIn(m, order[1..]);
    if m[k].ttl == UNLIMITED_PROPAGATION {
      assert all == map[k := m[k]] + rest;
      AddFirst(acc, k, m[k], rest);
    } else {
      assert all == rest;
    }
  }

  lemma AddFirst(acc: Tags, k: Key, c: TagContent, rest: Tags)
    requires k in rest ==> rest[k] == c
    ensures acc + (map[k := c] + rest) == acc[k := c] + rest
  {
  }

  lemma TravelValidFirst(m: Tags, order: seq<Key>)
    requires order != [] && forall k :: k in order ==> k in m
    ensures order[0] in m && forall k :: k in order[1..] ==> k in m
    ensures var k := order[0];
            AllTravelValid(m, order)
            <==> (m[k].ttl == UNLIMITED_PROPAGATION ==> CheckKeyName(k.name) && CheckValue(m[k].value))
                 && AllTravelValid(m, order[1..])
  {
    assert forall k :: k in order <==> k == order[0] || k in order[1..];
  }

  lemma {:induction false} DecodeTags(buf: Str, idx: nat, m: Tags, order: seq<Key>, acc: Tags)
    requires forall k :: k in order ==> k in m
    requires idx <= |buf| && buf[idx..] == WireTags(m, order)
    ensures DecodeFrom(buf, idx, acc).Ok? <==> AllTravelValid(m, order)
    ensures AllTravelValid(m, order) ==> DecodeFrom(buf, idx, acc) == Ok(Received(m, order, acc))
    decreases |order|
  {
    if order == [] {
      assert Received(m, order, acc) == acc;
    } else {
      var k, rest := order[0], order[1..];
      ReceivedFirst(m, order, acc);
      TravelValidFirst(m, order);
      var c := m[k];
      var tail := WireTags(m, rest);
      if c.ttl != UNLIMITED_PROPAGATION {
        assert [] + tail == tail;
        DecodeTags(buf, idx, m, rest, acc);
      } else {
        assert buf[idx..] == WireTag(k, c.value) + tail;
        DecodeOneTag(buf, idx, k, c.value, tail, acc);
        var next := idx + |WireTag(k, c.value)|;
        if CheckKeyName(k.name) && CheckValue(c.value) {
          DecodeTags(buf, next, m, rest, acc[k := c]);
          assert c == TagContent(c.value, UNLIMITED_PROPAGATION);
        }
      }
    }
  }

  /** For every order in which the map is ranged over, decoding the encoding succeeds exactly when
      all tags that travel are valid, and then gives exactly these tags back. */
  lemma DecodeUndoesEncode(m: Tags, order: seq<Key>)
    requires forall k :: k in order <==> k in m
    requires |EncodeSpec(Some(m), order)| < 0x8000_0000_0000_0000
    ensures DecodeSpec(EncodeSpec(Some(m), order)).Ok? <==> ValidTags(Propagated(m))
    ensures ValidTags(Propagated(m)) ==> DecodeSpec(EncodeSpec(Some(m), order)) == Ok(Propagated(m))
  {
    var buf := EncodeSpec(Some(m), order);
    assert buf[1..] == WireTags(m, order);
    DecodeTags(buf, 1, m, order, map[]);
    assert Received(m, order, map[]) == Propagated(m);
  }

  /** A map that New built from keys made by NewKey survives the wire. */
  lemma BuiltMapsTravel(orig: Tags, mus: seq<Mutator>, m: Tags, order: seq<Key>)
    requires ValidTags(orig) && MutateAll(orig, mus) == Ok(m)
    requires forall mu :: mu in mus ==> CheckKeyName(mu.k.name)
    requires forall k :: k in order <==> k in m
    requires |EncodeSpec(Some(m), order)| < 0x8000_0000_0000_0000
    ensures DecodeSpec(EncodeSpec(Some(m), order)) == Ok(Propagated(m))
  {
    MutatorsKeepValid(orig, mus);
    DecodeUndoesEncode(m, order);
  }

  // ---- the format on concrete maps, and what is rejected ----

  /** One tag with key "k" and value "v", one that does not travel, and no map at all. */
  lemma KnownEncodings()
    ensures EncodeSpec(Some(map[Key([107]) := TagContent([118], UNLIMITED_PROPAGATION)]), [Key([107])]) == [0, 0, 1, 107, 1, 118]
    ensures EncodeSpec(Some(map[Key([107]) := TagContent([118], NO_PROPAGATION)]), [Key([107])]) == [0]
    ensures EncodeSpec(None, []) == []
  {
    var k := Key([107]);
    assert [k][1..] == [] && PutUvarint(1) == [1];
    assert WireTag(k, [118]) == [0, 1, 107, 1, 118];
    var sent, kept: Tags := map[k := TagContent([118], UNLIMITED_PROPAGATION)], map[k := TagContent([118], NO_PROPAGATION)];
    assert WireTags(sent, [k][1..]) == [] && WireTags(kept, [k][1..]) == [];
    assert WireTags(sent, [k]) == WireTag(k, [118]) + [];
    assert WireTags(kept, [k]) == [] + [];
  }

  /** No bytes, or the version alone, are no tags; and the varint of a length of two groups. */
  lemma KnownDecodings()
    ensures DecodeSpec([]) == Ok(map[]) && DecodeSpec([0]) == Ok(map[])
    ensures PutUvarint(300) == [0xAC, 2]
  {
    var version: Str := [0];
    assert DecodeFrom(version, 1, map[]) == Ok(map[]);
    assert PutUvarint(300) == [300 % 0x80 + 0x80] + PutUvarint(2);
  }

  /** An unknown version or type byte, a missing length and a length beyond the end are told apart. */
  lemma Rejections(buf: Str, idx: nat, acc: Tags)
    ensures buf != [] && buf[0] != 0 ==> DecodeSpec(buf) == Err(UnsupportedVersion)
    ensures idx < |buf| && buf[idx] != 0 ==> DecodeFrom(buf, idx, acc) == Err(InvalidKeyType)
    ensures idx + 1 == |buf| && buf[idx] == 0 ==> DecodeFrom(buf, idx, acc) == Err(UnexpectedEnd)
    ensures idx + 1 < |buf| && buf[idx] == 0 && buf[idx + 1] < 0x80
            && |buf| < idx + 2 + buf[idx + 1] < 0x8000_0000_0000_0000
            ==> DecodeFrom(buf, idx, acc) == Err(Malformed)
  {
    if idx + 1 < |buf| && buf[idx + 1] < 0x80 {
      ShortString(buf, idx + 1);
    }
  }

  /** A string of fewer than 128 bytes is one length byte and its bytes. */
  lemma ShortString(buf: Str, idx: nat)
    requires idx < |buf| && buf[idx] < 0x80
    ensures var end := idx + 1 + buf[idx];
            ReadString(buf, idx) ==
            if end <= |buf| then Ok((buf[idx + 1..end], end))
            else if end < 0x8000_0000_0000_0000 then Err(Malformed)
            else Err(SliceFails)
  {
    assert buf[idx..][0] == buf[idx];
    assert Uvarint(buf[idx..], 0, 0, 1) == (buf[idx], 1);
    assert Int64(buf[idx]) == buf[idx];
    var end := idx + 1 + buf[idx];
    assert end >= 0x8000_0000_0000_0000 ==> Int64(end) == end - 0x1_0000_0000_0000_0000;
  }

  lemma BadKeyIsRejected()
    ensures DecodeSpec([0, 0, 0, 0]) == Err(BadTag(InvalidKeyName))
  {
    var buf: Str := [0, 0, 0, 0];
    ShortString(buf, 2);
    ShortString(buf, 3);
    assert DecodeFrom(buf, 1, map[]) == Err(BadTag(InvalidKeyName));
  }

  lemma BadValueIsRejected()
    ensures DecodeSpec([0, 0, 1, 107, 1, 10]) == Err(BadTag(InvalidValue))
  {
    var buf: Str := [0, 0, 1, 107, 1, 10];
    ShortString(buf, 2);
    ShortString(buf, 4);
    var name, value: Str := [107], [10];
    assert buf[3..4] == name && buf[5..6] == value;
    assert CheckKeyName(name) && value[0] == 10 && !CheckValue(value);
    assert DecodeFrom(buf, 1, map[]) == Err(BadTag(InvalidValue));
  }

  // ---- the encoder object ----

  class EncoderGrpc {
    var buf: array<Byte>
    var writeIdx: nat
    var readIdx: nat

    ghost predicate Valid()
      reads this
    {
      writeIdx <= buf.Length
    }

    /** bytes(): what was written so far. */
    ghost function Written(): seq<Byte>
      requires Valid()
      reads this, buf
    {
      buf[..writeIdx]
    }

    /** The buffer of an encoder is fresh, that of a decoder is the input. */
    constructor (buf: array<Byte>)
      ensures Valid() && this.buf == buf && Written() == [] && readIdx == 0
    {
      this.buf, writeIdx, readIdx := buf, 0, 0;
    }

    method GrowIfRequired(expected: nat)
      requires Valid()
      modifies this
      ensures Valid() && expected <= buf.Length - writeIdx
      ensures Written() == old(Written()) && readIdx == old(readIdx) && writeIdx == old(writeIdx)
      ensures buf == old(buf) || fresh(buf)
    {
      if buf.Length - writeIdx < expected {
        var tmp := new Byte[2 * (buf.Length + 1) + expected](_ => 0);
        var i := 0;
        while i < buf.Length
          modifies tmp
          invariant i <= buf.Length
          invariant tmp[..i] == buf[..i]
        {
          tmp[i] := buf[i];
          i := i + 1;
        }
        assert tmp[..writeIdx] == tmp[..i][..writeIdx];
        buf := tmp;
      }
    }

    method WriteByte(v: Byte)
      requires Valid()
      modifies this, buf
      ensures Valid() && Written() == old(Written()) + [v] && readIdx == old(readIdx)
      ensures buf == old(buf) || fresh(buf)
    {
      GrowIfRequired(1);
      buf[writeIdx] := v;
      writeIdx := writeIdx + 1;
    }

    /** binary.PutUvarint into the room after the write cursor. */
    method WriteUvarint(x: nat)
      requires Valid() && writeIdx + |PutUvarint(x)| <= buf.Length
      modifies this, buf
      ensures Valid() && Written() == old(Written()) + PutUvarint(x) && readIdx == old(readIdx)
      ensures buf == old(buf) && writeIdx == old(writeIdx) + |PutUvarint(x)|
    {
      var rest := x;
      while rest >= 0x80
        invariant buf == old(buf) && readIdx == old(readIdx)
        invariant writeIdx + |PutUvarint(rest)| == old(writeIdx) + |PutUvarint(x)|
        invariant Written() + PutUvarint(rest) == old(Written()) + PutUvarint(x)
        decreases rest
      {
        buf[writeIdx] := rest % 0x80 + 0x80;
        writeIdx := writeIdx + 1;
        rest := rest / 0x80;
      }
      buf[writeIdx] := rest;
      writeIdx := writeIdx + 1;
    }

    /** writeStringWithVarintLen, and writeBytesWithVarintLen, whose body is the same. */
    method WriteStringWithVarintLen(s: Str)
      requires Valid()
      modifies this, buf
      ensures Valid() && Written() == old(Written()) + WireString(s) && readIdx == old(readIdx)
      ensures buf == old(buf) || fresh(buf)
    {
      LengthFitsNineBytes(s);
      GrowIfRequired(MAX_VARINT_LEN_64 + |s|);
      WriteUvarint(|s|);
      CopyIn(s);
    }

    /** `copy(eg.buf[eg.writeIdx:], s)` and the move of the cursor. */
    method CopyIn(s: Str)
      requires Valid() && writeIdx + |s| <= buf.Length
      modifies `writeIdx, buf
      ensures Valid() && Written() == old(Written()) + s
    {
      var i := 0;
      while i < |s|
        invariant i <= |s| && buf[..writeIdx] == old(buf[..writeIdx])
        invariant forall j :: 0 <= j < i ==> buf[writeIdx + j] == s[j]
        modifies buf
      {
        buf[writeIdx + i] := s[i];
        i := i + 1;
      }
      assert buf[writeIdx..writeIdx + |s|] == s;
      assert buf[..writeIdx + |s|] == buf[..writeIdx] + buf[writeIdx..writeIdx + |s|];
      writeIdx := writeIdx + |s|;
    }

    method WriteTagString(k: Key, v: Str)
      requires Valid()
      modifies this, buf
      ensures Valid() && Written() == old(Written()) + WireTag(k, v)
      ensures buf == old(buf) || fresh(buf)
    {
      WriteByte(KEY_TYPE_STRING);
      WriteStringWithVarintLen(k.name);
      WriteStringWithVarintLen(v);
    }

    method ReadByte() returns (b: Byte)
      requires readIdx < buf.Length
      modifies `readIdx
      ensures b == buf[old(readIdx)] && readIdx == old(readIdx) + 1
    {
      b := buf[readIdx];
      readIdx := readIdx + 1;
    }

    method ReadBytesWithVarintLen() returns (r: Result<seq<Byte>, DecodeError>)
      modifies `readIdx
      ensures var spec := ReadString(buf[..], old(readIdx));
              && (spec.Ok? ==> r == Ok(spec.value.0) && readIdx == spec.value.1)
              && (spec.Err? ==> r == Err(spec.error) && readIdx == old(readIdx))
    {
      if readIdx >= buf.Length {
        return Err(UnexpectedEnd);
      }
      var (length, read) := Uvarint(buf[readIdx..], 0, 0, 1);
      if read <= 0 {
        return Err(UnexpectedEnd);
      }
      var valueStart := read + readIdx;
      var valueEnd := Int64(valueStart + Int64(length));
      if valueEnd > buf.Length {
        return Err(Malformed);
      }
      if valueEnd < valueStart {
        return Err(SliceFails);
      }
      readIdx := valueEnd;
      r := Ok(buf[valueStart..valueEnd]);
    }
  }

  lemma WireTagsNext(m: Tags, order: seq<Key>, i: nat, written: seq<Byte>)
    requires i < |order| && forall k :: k in order ==> k in m
    ensures order[i] in m
    ensures written + WireTags(m, order[i..]) ==
            (if m[order[i]].ttl == UNLIMITED_PROPAGATION then written + WireTag(order[i], m[order[i]].value) else written)
            + WireTags(m, order[i + 1..])
  {
    assert order[i] in order && order[i..][0] == order[i] && order[i..][1..] == order[i + 1..];
  }

  /** Encode; `order` is the order in which the map is ranged over. */
  method Encode(m: Option<Tags>, order: seq<Key>) returns (out: seq<Byte>)
    requires m.Some? ==> forall k :: k in order <==> k in m.value
    ensures out == EncodeSpec(m, order)
  {
    if m.None? {
      return [];
    }
    var buf := new Byte[|m.value|](_ => 0);
    var eg := new EncoderGrpc(buf);
    eg.WriteByte(TAGS_VERSION);
    var i := 0;
    while i < |order|
      invariant i <= |order| && eg.Valid() && fresh(eg) && fresh(eg.buf)
      invariant eg.Written() + WireTags(m.value, order[i..]) == [TAGS_VERSION] + WireTags(m.value, order)
    {
      var k := order[i];
      assert k in order;
      WireTagsNext(m.value, order, i, eg.Written());
      if m.value[k].ttl == UNLIMITED_PROPAGATION {
        eg.WriteTagString(k, m.value[k].value);
      }
      i := i + 1;
    }
    out := eg.buf[..eg.writeIdx];
  }

  /** Decode, with the map that upsert fills; an error discards it. */
  method Decode(bytes: array<Byte>) returns (r: Result<Tags, DecodeError>)
    requires bytes.Length < 0x8000_0000_0000_0000
    ensures r == DecodeSpec(bytes[..])
  {
    var eg := new EncoderGrpc(bytes);
    if bytes.Length == 0 {
      return Ok(map[]);
    }
    var version := eg.ReadByte();
    if version > TAGS_VERSION {
      return Err(UnsupportedVersion);
    }
    var ts: Tags := map[];
    while eg.readIdx < bytes.Length
      invariant fresh(eg) && eg.buf == bytes
      invariant DecodeFrom(bytes[..], 1, map[]) == DecodeFrom(bytes[..], eg.readIdx, ts)
      decreases bytes.Length - eg.readIdx
      modifies eg
    {
      var typ := eg.ReadByte();
      if typ != KEY_TYPE_STRING {
        return Err(InvalidKeyType);
      }
      var k := eg.ReadBytesWithVarintLen();
      if k.Err? {
        return Err(k.error);
      }
      var v := eg.ReadBytesWithVarintLen();
      if v.Err? {
        return Err(v.error);
      }
      var key := NewKey(k.value);
      if key.Err? {
        return Err(BadTag(key.error));
      }
      if !CheckValue(v.value) {
        return Err(BadTag(InvalidValue));
      }
      ts := ts[key.value := TagContent(v.value, UNLIMITED_PROPAGATION)];
    }
    r := Ok(ts);
  }
}