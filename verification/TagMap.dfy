/** Tag maps and their validation: tag/map.go, tag/key.go, tag/metadata.go and tag/validate.go. */
module TagMaps {
  import opened Wrappers

  type Byte = b: int | 0 <= b < 256

  /** A Go string or byte slice: its length is a signed 64-bit int. */
  type Str = s: seq<Byte> | |s| < 0x8000_0000_0000_0000

  const MAX_KEY_LENGTH := 255
  const VALID_MIN := 32
  const VALID_MAX := 126

  const NO_PROPAGATION := 0
  const UNLIMITED_PROPAGATION := -1

  datatype Key = Key(name: Str)

  datatype TagContent = TagContent(value: Str, ttl: int)

  type Tags = map<Key, TagContent>

  datatype TagError = InvalidKeyName | InvalidValue

  /** isASCII ranges over runes; a byte above 126 is part of a rune above 126, so testing the
      bytes gives the same answer. */
  predicate IsAscii(s: Str) {
    forall i :: 0 <= i < |s| ==> VALID_MIN <= s[i] <= VALID_MAX
  }

  predicate CheckKeyName(name: Str) {
    0 < |name| <= MAX_KEY_LENGTH && IsAscii(name)
  }

  predicate CheckValue(v: Str) {
    |v| <= MAX_KEY_LENGTH && IsAscii(v)
  }

  function NewKey(name: Str): (r: Result<Key, TagError>)
    ensures r.Ok? <==> CheckKeyName(name)
    ensures r.Ok? ==> r.value.name == name
  {
    if CheckKeyName(name) then Ok(Key(name)) else Err(InvalidKeyName)
  }

  ghost predicate ValidTags(m: Tags) {
    forall k :: k in m ==> CheckKeyName(k.name) && CheckValue(m[k].value)
  }

  // ---- mutators ----

  datatype Mutator =
    | Insert(k: Key, v: Str, mds: seq<Option<int>>)
    | Update(k: Key, v: Str, mds: seq<Option<int>>)
    | Upsert(k: Key, v: Str, mds: seq<Option<int>>)
    | Delete(k: Key)

  /** The time to live that the metadata functions set: the last non-nil one wins, none at all
      means unlimited, and only nil ones leave the zero value. */
  function Ttl(mds: seq<Option<int>>): int {
    if mds == [] then UNLIMITED_PROPAGATION else LastTtl(mds)
  }

  function LastTtl(mds: seq<Option<int>>): int {
    if mds == [] then NO_PROPAGATION
    else if mds[|mds| - 1].Some? then mds[|mds| - 1].value
    else LastTtl(mds[..|mds| - 1])
  }

  method CreateMetadatas(mds: seq<Option<int>>) returns (ttl: int)
    ensures ttl == Ttl(mds)
  {
    ttl := NO_PROPAGATION;
    if |mds| == 0 {
      return UNLIMITED_PROPAGATION;
    }
    var i := 0;
    while i < |mds|
      invariant i <= |mds| && ttl == LastTtl(mds[..i])
    {
      if mds[i].Some? {
        ttl := mds[i].value;
      }
      assert mds[..i + 1][..i] == mds[..i];
      i := i + 1;
    }
    assert mds[..i] == mds;
  }

  function Mutate(m: Tags, mu: Mutator): Result<Tags, TagError> {
    if !mu.Delete? && !CheckValue(mu.v) then Err(InvalidValue)
    else match mu
         case Insert(k, v, mds) => Ok(if k in m then m else m[k := TagContent(v, Ttl(mds))])
         case Update(k, v, mds) => Ok(if k in m then m[k := TagContent(v, Ttl(mds))] else m)
         case Upsert(k, v, mds) => Ok(m[k := TagContent(v, Ttl(mds))])
         case Delete(k) => Ok(m - {k})
  }

  /** What the context reads for any key after a mutator: only its own key may change, Insert needs it
      absent and Update present, and an invalid value changes nothing. */
  lemma MutatorEffect(m: Tags, mu: Mutator, x: Key)
    ensures var r := Mutate(m, mu);
            && (r.Err? <==> !mu.Delete? && !CheckValue(mu.v))
            && (r.Ok? && x != mu.k ==> (x in r.value <==> x in m) && (x in m ==> r.value[x] == m[x]))
            && (r.Ok? && mu.Delete? ==> mu.k !in r.value)
            && (r.Ok? && !mu.Delete? ==> (mu.k in r.value <==> mu.k in m || !mu.Update?))
            && (r.Ok? && mu.k in r.value ==>
                  r.value[mu.k] == if mu.Insert? && mu.k in m then m[mu.k] else TagContent(mu.v, Ttl(mu.mds)))
  {
  }

  /** The time to live is that of the last metadata that is not nil. */
  lemma {:induction false} TtlIsTheLast(mds: seq<Option<int>>, i: nat)
    requires i < |mds| && mds[i].Some? && forall j :: i < j < |mds| ==> mds[j].None?
    ensures Ttl(mds) == mds[i].value
  {
    LastTtlIsTheLast(mds, i);
  }

  lemma {:induction false} LastTtlIsTheLast(mds: seq<Option<int>>, i: nat)
    requires i < |mds| && mds[i].Some? && forall j :: i < j < |mds| ==> mds[j].None?
    ensures LastTtl(mds) == mds[i].value
    decreases |mds|
  {
    if i < |mds| - 1 {
      LastTtlIsTheLast(mds[..|mds| - 1], i);
    }
  }

  lemma {:induction false} NilMetadataIsNoTtl(mds: seq<Option<int>>)
    requires forall j :: 0 <= j < |mds| ==> mds[j].None?
    ensures Ttl(mds) == if mds == [] then -1 else 0
  {
    LastOfNilIsZero(mds);
  }

  lemma {:induction false} LastOfNilIsZero(mds: seq<Option<int>>)
    requires forall j :: 0 <= j < |mds| ==> mds[j].None?
    ensures LastTtl(mds) == 0
    decreases |mds|
  {
    if mds != [] {
      LastOfNilIsZero(mds[..|mds| - 1]);
    }
  }

  function Repeat(b: Byte, n: nat): (s: seq<Byte>)
    ensures |s| == n && forall i :: 0 <= i < n ==> s[i] == b
  {
    seq(n, _ => b)
  }

  /** Where the checks draw the line: the printable bytes are 32 to 126, a name has 1 to 255 of them
      and a value up to 255. */
  lemma Boundaries(b: Byte)
    ensures IsAscii([b]) <==> 32 <= b < 127
    ensures !CheckKeyName([]) && CheckValue([])
    ensures CheckKeyName(Repeat(65, 255)) && CheckValue(Repeat(65, 255))
    ensures !CheckKeyName(Repeat(65, 256)) && !CheckValue(Repeat(65, 256))
    ensures !CheckKeyName([65, 10]) && !CheckValue([65, 200])
  {
    assert IsAscii([b]) ==> VALID_MIN <= [b][0] <= VALID_MAX;
    var name, value: Str := [65, 10], [65, 200];
    assert name[1] == 10 && value[1] == 200;
  }

  function MutateAll(m: Tags, mus: seq<Mutator>): Result<Tags, TagError> {
    if mus == [] then Ok(m)
    else
      var r := MutateAll(m, mus[..|mus| - 1]);
      if r.Err? then r else Mutate(r.value, mus[|mus| - 1])
  }

  class Map {
    var m: Tags

    constructor ()
      ensures m == map[]
    {
      m := map[];
    }

    method Apply(mu: Mutator) returns (r: Option<TagError>)
      modifies this
      ensures r == if Mutate(old(m), mu).Ok? then None else Some(Mutate(old(m), mu).error)
      ensures m == if r.None? then Mutate(old(m), mu).value else old(m)
    {
      if !mu.Delete? && !CheckValue(mu.v) {
        return Some(InvalidValue);
      }
      match mu {
        case Insert(k, v, mds) =>
          var ttl := CreateMetadatas(mds);
          if k !in m {
            m := m[k := TagContent(v, ttl)];
          }
        case Update(k, v, mds) =>
          var ttl := CreateMetadatas(mds);
          if k in m {
            m := m[k := TagContent(v, ttl)];
          }
        case Upsert(k, v, mds) =>
          var ttl := CreateMetadatas(mds);
          m := m[k := TagContent(v, ttl)];
        case Delete(k) =>
          m := m - {k};
      }
      r := None;
    }
  }

  /** Copies the tags of the context, checking each. */
  method CopyChecked(orig: Tags) returns (r: Result<Tags, TagError>)
    ensures r.Ok? <==> ValidTags(orig)
    ensures r.Ok? ==> r.value == orig
  {
    var m: Tags := map[];
    var todo := orig.Keys;
    while todo != {}
      invariant todo <= orig.Keys
      invariant m.Keys == orig.Keys - todo
      invariant forall k :: k in m ==> m[k] == orig[k] && CheckKeyName(k.name) && CheckValue(orig[k].value)
      decreases |todo|
    {
      var k :| k in todo;
      if !CheckKeyName(k.name) {
        return Err(InvalidKeyName);
      }
      if !CheckValue(orig[k].value) {
        return Err(InvalidValue);
      }
      m := m[k := orig[k]];
      todo := todo - {k};
    }
    assert m == orig;
    r := Ok(m);
  }

  /** New: starts from the checked tags of the context, then applies the mutators in turn and
      gives up at the first error. */
  method New(orig: Option<Tags>, mus: seq<Mutator>) returns (r: Result<Tags, TagError>)
    ensures r.Ok? <==> (orig.Some? ==> ValidTags(orig.value))
                       && MutateAll(if orig.Some? then orig.value else map[], mus).Ok?
    ensures r.Ok? ==> r == MutateAll(if orig.Some? then orig.value else map[], mus)
  {
    var t := new Map();
    if orig.Some? {
      var copied := CopyChecked(orig.value);
      if copied.Err? {
        return copied;
      }
      t.m := copied.value;
    }
    ghost var start := t.m;
    var i := 0;
    while i < |mus|
      invariant i <= |mus| && MutateAll(start, mus[..i]) == Ok(t.m)
    {
      assert mus[..i + 1][..i] == mus[..i];
      var e := t.Apply(mus[i]);
      if e.Some? {
        MutateAllStops(start, mus, i + 1);
        return Err(e.value);
      }
      i := i + 1;
    }
    assert mus[..i] == mus;
    r := Ok(t.m);
  }

  lemma {:induction false} MutateAllStops(m: Tags, mus: seq<Mutator>, n: nat)
    requires n <= |mus| && MutateAll(m, mus[..n]).Err?
    ensures MutateAll(m, mus).Err?
    decreases |mus| - n
  {
    if n == |mus| {
      assert mus[..n] == mus;
    } else {
      assert mus[..n + 1][..n] == mus[..n];
      MutateAllStops(m, mus, n + 1);
    }
  }

  /** Mutators whose keys were made by NewKey keep every tag valid. */
  lemma {:induction false} MutatorsKeepValid(m: Tags, mus: seq<Mutator>)
    requires ValidTags(m) && MutateAll(m, mus).Ok?
    requires forall mu :: mu in mus ==> CheckKeyName(mu.k.name)
    ensures ValidTags(MutateAll(m, mus).value)
    decreases |mus|
  {
    if mus == [] {
    } else {
      assert mus[|mus| - 1] in mus;
      MutatorsKeepValid(m, mus[..|mus| - 1]);
    }
  }
}
