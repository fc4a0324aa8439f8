/** entityconv.c: the table of named entities behind a hash, and their replacement by UTF-8
    within the buffer that holds the text. */
module EntityConvs {
  import opened Helpers

  newtype Byte = x: int | 0 <= x < 256

  type Bytes = seq<Byte>

  const AMP: Byte := 0x26
  const SEMI: Byte := 0x3b
  const HASH: Byte := 0x23

  datatype Entity = Entity(ident: Bytes, unicode: bv16)

  // The hash table.

  function HashFrom(h: bv32, s: Bytes): bv32
    decreases |s|
  {
    if s == [] then h else HashFrom(h + ((h << 1) ^ (s[0] as bv32)), s[1..])
  }

  /** entity_hash; names are ASCII, and what does not fit an int wraps. */
  function EntityHash(s: Bytes): (h: nat)
    ensures h < 128
  {
    (HashFrom(0xc8, s) & 0x7f) as nat
  }

  /** The entities of a bucket, in table order. */
  function Bucket(es: seq<Entity>, h: nat): seq<Entity> {
    if es == [] then []
    else
      var e := es[|es| - 1];
      Bucket(es[..|es| - 1], h) + if EntityHash(e.ident) == h then [e] else []
  }

  /** The first entity of that name. */
  function Find(es: seq<Entity>, name: Bytes): Option<Entity> {
    if es == [] then None
    else
      var r := Find(es[..|es| - 1], name);
      if r.None? && es[|es| - 1].ident == name then Some(es[|es| - 1]) else r
  }

  lemma {:induction false} FindFirst(es: seq<Entity>, name: Bytes, k: nat)
    requires k < |es| && es[k].ident == name && forall i :: 0 <= i < k ==> es[i].ident != name
    ensures Find(es, name) == Some(es[k])
    decreases |es|
  {
    var init := es[..|es| - 1];
    if k < |init| {
      FindFirst(init, name, k);
    } else {
      FindNone(init, name);
    }
  }

  lemma {:induction false} FindNone(es: seq<Entity>, name: Bytes)
    requires forall i :: 0 <= i < |es| ==> es[i].ident != name
    ensures Find(es, name) == None
  {
    if es != [] {
      FindNone(es[..|es| - 1], name);
    }
  }

  lemma {:induction false} FindNames(es: seq<Entity>, name: Bytes)
    ensures match Find(es, name)
      case Some(e) => e in es && e.ident == name
      case None => forall i :: 0 <= i < |es| ==> es[i].ident != name
  {
    if es != [] {
      FindNames(es[..|es| - 1], name);
    }
  }

  /** The bucket of a name's hash knows the name as the whole table does. */
  lemma {:induction false} BucketAgrees(es: seq<Entity>, name: Bytes)
    ensures Find(Bucket(es, EntityHash(name)), name) == Find(es, name)
  {
    if es != [] {
      var init, e, h := es[..|es| - 1], es[|es| - 1], EntityHash(name);
      BucketAgrees(init, name);
      var b := Bucket(init, h);
      if EntityHash(e.ident) == h {
        assert (b + [e])[..|b|] == b;
      } else {
        assert b + [] == b;
      }
    }
  }

  class HashTable {
    const buckets: array<seq<Entity>>
    var initialized: bool

    ghost predicate Holds(es: seq<Entity>)
      reads this, buckets
    {
      buckets.Length == 128 && forall h :: 0 <= h < 128 ==> buckets[h] == Bucket(es, h)
    }

    constructor ()
      ensures !initialized && Holds([]) && fresh(buckets)
    {
      buckets := new seq<Entity>[128](_ => []);
      initialized := false;
    }

    /** lm_entity_hashtbl_init. */
    method Init(entities: seq<Entity>)
      requires !initialized ==> Holds([])
      modifies this, buckets
      ensures initialized
      ensures if old(initialized) then buckets[..] == old(buckets[..]) else Holds(entities)
    {
      if initialized {
        return;
      }
      var x := 0;
      while x < |entities|
        invariant x <= |entities| && Holds(entities[..x])
      {
        var hash := EntityHash(entities[x].ident);
        assert entities[..x + 1][..x] == entities[..x];
        buckets[hash] := buckets[hash] + [entities[x]];
        x := x + 1;
      }
      assert entities[..x] == entities;
      initialized := true;
    }

    /** The search through one bucket. */
    method Lookup(name: Bytes, ghost es: seq<Entity>) returns (r: Option<Entity>)
      requires Holds(es)
      ensures r == Find(es, name)
    {
      BucketAgrees(es, name);
      var bucket := buckets[EntityHash(name)];
      var x := 0;
      while x < |bucket|
        invariant x <= |bucket| && forall i :: 0 <= i < x ==> bucket[i].ident != name
      {
        if bucket[x].ident == name {
          FindFirst(bucket, name, x);
          return Some(bucket[x]);
        }
        x := x + 1;
      }
      FindNone(bucket, name);
      r := None;
    }
  }

  // UTF-8.

  /** What unicode_to_utf8 writes; octets are computed on 16 bits. */
  function Octets(v: bv16): (s: seq<bv16>)
    ensures 1 <= |s| <= 3 && forall x :: 0 <= x < |s| ==> s[x] < 0x100
  {
    if v < 0x0080 then [v]
    else if v < 0x0800 then [0xc0 | (v >> 6), 0x80 | (v & 0x3f)]
    else [0xe0 | (v >> 12), 0x80 | ((v >> 6) & 0x3f), 0x80 | (v & 0x3f)]
  }

  predicate TwoOctets(v: bv16, a: bv16, b: bv16) {
    a & 0xffe0 == 0xc0 && b & 0xffc0 == 0x80 && ((a & 0x1f) << 6) | (b & 0x3f) == v
  }

  predicate ThreeOctets(v: bv16, a: bv16, b: bv16, c: bv16) {
    && a & 0xfff0 == 0xe0 && b & 0xffc0 == 0x80 && c & 0xffc0 == 0x80
    && ((a & 0x0f) << 12) | ((b & 0x3f) << 6) | (c & 0x3f) == v
  }

  /** The octet sequences of section 3 of RFC 3629, for numbers of 16 bits. */
  ghost predicate IsUtf8(s: seq<bv16>, v: bv16) {
    if v < 0x80 then |s| == 1 && s[0] == v
    else if v < 0x800 then |s| == 2 && TwoOctets(v, s[0], s[1])
    else |s| == 3 && ThreeOctets(v, s[0], s[1], s[2])
  }

  lemma TwoBits(v: bv16, a: bv16, b: bv16)
    requires 0x80 <= v < 0x800
    ensures TwoOctets(v, a, b) <==> a == 0xc0 | (v >> 6) && b == 0x80 | (v & 0x3f)
  {
  }

  lemma ThreeBitsOut(v: bv16, a: bv16, b: bv16, c: bv16)
    requires a == 0xe0 | (v >> 12) && b == 0x80 | ((v >> 6) & 0x3f) && c == 0x80 | (v & 0x3f)
    ensures ThreeOctets(v, a, b, c)
  {
  }

  lemma ThreeBitsIn(v: bv16, a: bv16, b: bv16, c: bv16)
    requires ThreeOctets(v, a, b, c)
    ensures a == 0xe0 | (v >> 12) && b == 0x80 | ((v >> 6) & 0x3f) && c == 0x80 | (v & 0x3f)
  {
  }

  lemma ThreeBits(v: bv16, a: bv16, b: bv16, c: bv16)
    ensures ThreeOctets(v, a, b, c) <==>
      a == 0xe0 | (v >> 12) && b == 0x80 | ((v >> 6) & 0x3f) && c == 0x80 | (v & 0x3f)
  {
    if ThreeOctets(v, a, b, c) {
      ThreeBitsIn(v, a, b, c);
    } else if a == 0xe0 | (v >> 12) && b == 0x80 | ((v >> 6) & 0x3f) && c == 0x80 | (v & 0x3f) {
      ThreeBitsOut(v, a, b, c);
    }
  }

  /** The encoding is the one RFC 3629 prescribes, and no other sequence of octets is. */
  lemma Utf8Encodes(s: seq<bv16>, v: bv16)
    ensures IsUtf8(s, v) <==> s == Octets(v)
  {
    if |s| == 2 && 0x80 <= v < 0x800 {
      TwoBits(v, s[0], s[1]);
    } else if |s| == 3 && 0x800 <= v {
      ThreeBits(v, s[0], s[1], s[2]);
    }
  }

  function UnicodeToUtf8(v: bv16): (s: Bytes)
    ensures 1 <= |s| <= 3
  {
    var octets := Octets(v);
    seq(|octets|, x requires 0 <= x < |octets| => octets[x] as Byte)
  }

  /** The bytes have the values of the octets. */
  ghost predicate SameValues(s: Bytes, octets: seq<bv16>) {
    |s| == |octets| && forall x :: 0 <= x < |s| ==> octets[x] < 0x100 && s[x] == octets[x] as Byte
  }

  /** The bytes are the UTF-8 form of the character v. */
  ghost predicate Encodes(s: Bytes, v: bv16) {
    exists octets :: IsUtf8(octets, v) && SameValues(s, octets)
  }

  /** What is written is the UTF-8 form of the character, and nothing else is. */
  lemma WritesUtf8(s: Bytes, v: bv16)
    ensures Encodes(s, v) <==> s == UnicodeToUtf8(v)
  {
    var o := Octets(v);
    Utf8Encodes(o, v);
    assert s == UnicodeToUtf8(v) <==> SameValues(s, o);
    if Encodes(s, v) {
      var octets :| IsUtf8(octets, v) && SameValues(s, octets);
      Utf8Encodes(octets, v);
    }
  }

  // The replacement.

  predicate IsAlnum(c: Byte) {
    0x30 <= c <= 0x39 || 0x41 <= c <= 0x5a || 0x61 <= c <= 0x7a
  }

  function NameEnd(t: Bytes, i: nat): (m: nat)
    requires i <= |t|
    ensures i <= m <= |t|
    ensures forall x :: i <= x < m ==> IsAlnum(t[x])
    ensures m < |t| ==> !IsAlnum(t[m])
    decreases |t| - i
  {
    if i < |t| && IsAlnum(t[i]) then NameEnd(t, i + 1) else i
  }

  /** A reference &name; starts at i. */
  predicate IsRef(t: Bytes, i: nat)
    requires i < |t|
  {
    t[i] == AMP && NameEnd(t, i + 1) < |t| && t[NameEnd(t, i + 1)] == SEMI
  }

  /** The text from i on with its references replaced; one whose name is not in the table
      stays as it is, except that it ends in `mark`. */
  function Decoded(es: seq<Entity>, t: Bytes, i: nat, mark: Byte): Bytes
    decreases |t| - i
  {
    if i >= |t| then []
    else if !IsRef(t, i) then [t[i]] + Decoded(es, t, i + 1, mark)
    else
      var m := NameEnd(t, i + 1);
      match Find(es, t[i + 1..m])
      case Some(e) => UnicodeToUtf8(e.unicode) + Decoded(es, t, m + 1, mark)
      case None => t[i..m] + [mark] + Decoded(es, t, m + 1, mark)
  }

  /** Every reference from i on names an entity. */
  predicate AllKnown(es: seq<Entity>, t: Bytes, i: nat)
    decreases |t| - i
  {
    i < |t| ==>
      if !IsRef(t, i) then AllKnown(es, t, i + 1)
      else Find(es, t[i + 1..NameEnd(t, i + 1)]).Some? && AllKnown(es, t, NameEnd(t, i + 1) + 1)
  }

  ghost predicate SameAsMeant(es: seq<Entity>, t: Bytes, i: nat) {
    && (Decoded(es, t, i, 0) == Decoded(es, t, i, SEMI) <==> AllKnown(es, t, i))
    && |Decoded(es, t, i, 0)| == |Decoded(es, t, i, SEMI)|
  }

  lemma KnownRef(es: seq<Entity>, t: Bytes, i: nat, m: nat)
    requires i < |t| && IsRef(t, i) && m == NameEnd(t, i + 1) && SameAsMeant(es, t, m + 1)
    ensures SameAsMeant(es, t, i)
  {
    var x, y := Decoded(es, t, m + 1, 0), Decoded(es, t, m + 1, SEMI);
    match Find(es, t[i + 1..m])
    case Some(e) => SamePrefix(UnicodeToUtf8(e.unicode), x, y);
    case None => assert (t[i..m] + [0] + x)[m - i] == 0 && (t[i..m] + [SEMI] + y)[m - i] == SEMI;
  }

  /** The semicolon of an unknown reference is lost to the NUL that ended its name, so the
      text comes out as it should exactly when every reference is known. */
  lemma {:induction false} KnownExactly(es: seq<Entity>, t: Bytes, i: nat)
    ensures SameAsMeant(es, t, i)
    decreases |t| - i
  {
    if i < |t| {
      if IsRef(t, i) {
        KnownExactly(es, t, NameEnd(t, i + 1) + 1);
        KnownRef(es, t, i, NameEnd(t, i + 1));
      } else {
        KnownExactly(es, t, i + 1);
        SamePrefix([t[i]], Decoded(es, t, i + 1, 0), Decoded(es, t, i + 1, SEMI));
      }
    }
  }

  lemma SamePrefix(a: Bytes, x: Bytes, y: Bytes)
    ensures a + x == a + y <==> x == y
  {
    if a + x == a + y {
      assert x == (a + x)[|a|..] && y == (a + y)[|a|..];
    }
  }

  /** A text as it is written: stretches without ampersands, references, and ampersands
      that start none. */
  datatype Piece = Plain(text: Bytes) | Ref(name: Bytes) | Stray(name: Bytes)

  /** Digits and letters. */
  predicate AllAlnum(s: Bytes) {
    forall x :: 0 <= x < |s| ==> 0x30 <= s[x] <= 0x39 || 0x41 <= s[x] <= 0x5a || 0x61 <= s[x] <= 0x7a
  }

  /** The piece, with rest behind it, is what it says. */
  ghost predicate ProperPiece(p: Piece, rest: Bytes) {
    forall z {:trigger ShowPiece(p, z)} :: ShowPiece(p, z) ==> Stands(p, rest)
  }

  ghost predicate ShowPiece(p: Piece, z: int) { true }

  predicate Stands(p: Piece, rest: Bytes) {
    match p
    case Plain(text) => AMP !in text
    case Ref(name) => AllAlnum(name)
    case Stray(name) => AllAlnum(name) && (rest != [] ==> !AllAlnum(rest[..1]) && rest[0] != SEMI)
  }

  ghost predicate Proper(ps: seq<Piece>) {
    ps == [] || (ProperPiece(ps[0], Written(ps[1..])) && Proper(ps[1..]))
  }

  function WrittenPiece(p: Piece): Bytes {
    match p
    case Plain(text) => text
    case Ref(name) => [AMP] + name + [SEMI]
    case Stray(name) => [AMP] + name
  }

  function Written(ps: seq<Piece>): Bytes {
    if ps == [] then [] else WrittenPiece(ps[0]) + Written(ps[1..])
  }

  /** What the conversion should leave of a piece: a known reference becomes its entity's
      character in UTF-8, and the rest stays; but an unknown reference ends in mark. */
  ghost predicate Means(es: seq<Entity>, p: Piece, w: Bytes, mark: Byte) {
    forall z {:trigger ShowPiece(p, z)} :: ShowPiece(p, z) ==> Becomes(es, p, w, mark)
  }

  ghost predicate Becomes(es: seq<Entity>, p: Piece, w: Bytes, mark: Byte) {
    match p
    case Plain(text) => w == text
    case Stray(name) => w == [AMP] + name
    case Ref(name) =>
      match Find(es, name)
      case Some(e) => Encodes(w, e.unicode)
      case None => w == [AMP] + name + [mark]
  }

  ghost predicate AllMean(es: seq<Entity>, ps: seq<Piece>, ws: seq<Bytes>, mark: Byte) {
    |ws| == |ps| && forall k :: 0 <= k < |ps| ==> Means(es, ps[k], ws[k], mark)
  }

  function Concat(ws: seq<Bytes>): Bytes {
    if ws == [] then [] else ws[0] + Concat(ws[1..])
  }

  lemma DecodedPlain(es: seq<Entity>, t: Bytes, i: nat, mark: Byte)
    requires i < |t| && !IsRef(t, i)
    ensures Decoded(es, t, i, mark) == [t[i]] + Decoded(es, t, i + 1, mark)
  {
  }

  lemma DecodedRef(es: seq<Entity>, t: Bytes, i: nat, m: nat, mark: Byte)
    requires i < m < |t| && IsRef(t, i) && m == NameEnd(t, i + 1)
    ensures Decoded(es, t, i, mark) ==
      (match Find(es, t[i + 1..m]) case Some(e) => UnicodeToUtf8(e.unicode) case None => t[i..m] + [mark])
      + Decoded(es, t, m + 1, mark)
  {
  }

  /** Decoded, hidden until Unfold is mentioned. */
  ghost predicate Gives(es: seq<Entity>, t: Bytes, i: nat, mark: Byte, out: Bytes) {
    forall z {:trigger Unfold(z)} :: Unfold(z) ==> Decoded(es, t, i, mark) == out
  }

  lemma PlainStep(es: seq<Entity>, t: Bytes, i: nat, mark: Byte, out: Bytes)
    requires i < |t| && t[i] != AMP && Gives(es, t, i + 1, mark, out)
    ensures Gives(es, t, i, mark, [t[i]] + out)
  {
    assert Unfold(0);
    DecodedPlain(es, t, i, mark);
  }

  lemma {:induction false} PlainSkips(es: seq<Entity>, t: Bytes, i: nat, k: nat, mark: Byte, out: Bytes)
    requires i <= k <= |t| && (forall x :: i <= x < k ==> t[x] != AMP) && Gives(es, t, k, mark, out)
    ensures Gives(es, t, i, mark, t[i..k] + out)
    decreases k - i
  {
    if i == k {
      assert t[i..k] + out == out;
    } else {
      PlainSkips(es, t, i + 1, k, mark, out);
      PlainStep(es, t, i, mark, t[i + 1..k] + out);
      assert [t[i]] + (t[i + 1..k] + out) == t[i..k] + out;
    }
  }

  lemma PlainSkipped(es: seq<Entity>, t: Bytes, i: nat, k: nat, mark: Byte)
    requires i <= k <= |t| && forall x :: i <= x < k ==> t[x] != AMP
    ensures Decoded(es, t, i, mark) == t[i..k] + Decoded(es, t, k, mark)
  {
    PlainSkips(es, t, i, k, mark, Decoded(es, t, k, mark));
    assert Unfold(0);
  }

  lemma {:induction false} NameEndIs(t: Bytes, i: nat, m: nat)
    requires i <= m <= |t| && (forall x :: i <= x < m ==> IsAlnum(t[x])) && (m < |t| ==> !IsAlnum(t[m]))
    ensures NameEnd(t, i) == m
    decreases m - i
  {
    if i < m {
      NameEndIs(t, i + 1, m);
    }
  }

  lemma PlainStands(t: Bytes, i: nat, text: Bytes, rest: Bytes)
    requires i <= |t| && t[i..] == text + rest
    ensures var k := i + |text|;
      && k <= |t| && t[i..k] == text && t[k..] == rest
      && forall x :: i <= x < k ==> t[x] == text[x - i]
  {
    var k := i + |text|;
    assert t[i..k] == t[i..][..|text|] && t[k..] == t[i..][|text|..];
    assert forall x :: i <= x < k ==> t[x] == t[i..k][x - i];
  }

  lemma RefStands(t: Bytes, i: nat, name: Bytes, rest: Bytes)
    requires i <= |t| && t[i..] == [AMP] + name + [SEMI] + rest && forall x :: 0 <= x < |name| ==> IsAlnum(name[x])
    ensures var m := i + 1 + |name|;
      && m < |t| && t[i + 1..m] == name && t[m + 1..] == rest && IsRef(t, i) && NameEnd(t, i + 1) == m
  {
    var m := i + 1 + |name|;
    PlainStands(t, i, [AMP], name + [SEMI] + rest) by {
      assert t[i..] == [AMP] + (name + [SEMI] + rest);
    }
    assert t[i + 1..] == name + ([SEMI] + rest);
    PlainStands(t, i + 1, name, [SEMI] + rest);
    PlainStands(t, m, [SEMI], rest);
    NameEndIs(t, i + 1, m);
  }

  lemma PlainGives(es: seq<Entity>, text: Bytes, t: Bytes, i: nat, rest: Bytes, mark: Byte, out: Bytes)
    requires AMP !in text && i <= |t| && t[i..] == text + rest && Gives(es, t, i + |text|, mark, out)
    ensures i + |text| <= |t| && t[i + |text|..] == rest && Gives(es, t, i, mark, text + out)
  {
    PlainStands(t, i, text, rest);
    PlainSkips(es, t, i, i + |text|, mark, out);
  }

  lemma RefStep(es: seq<Entity>, t: Bytes, i: nat, m: nat, mark: Byte, w: Bytes, out: Bytes)
    requires i < m < |t| && IsRef(t, i) && m == NameEnd(t, i + 1)
    requires Means(es, Ref(t[i + 1..m]), w, mark) && Gives(es, t, m + 1, mark, out)
    ensures Gives(es, t, i, mark, w + out)
  {
    assert Unfold(0) && ShowPiece(Ref(t[i + 1..m]), 0);
    DecodedRef(es, t, i, m, mark);
    match Find(es, t[i + 1..m])
    case Some(e) => WritesUtf8(w, e.unicode);
    case None => assert t[i..m] == [AMP] + t[i + 1..m];
  }

  lemma RefGives(es: seq<Entity>, name: Bytes, t: Bytes, i: nat, rest: Bytes, mark: Byte, out: Bytes) returns (w: Bytes)
    requires AllAlnum(name) && i <= |t| && t[i..] == [AMP] + name + [SEMI] + rest
    requires Gives(es, t, i + |name| + 2, mark, out)
    ensures Gives(es, t, i, mark, w + out) && Means(es, Ref(name), w, mark)
  {
    match Find(es, name) {
      case Some(e) =>
        w := UnicodeToUtf8(e.unicode);
        WritesUtf8(w, e.unicode);
      case None => w := [AMP] + name + [mark];
    }
    RefStands(t, i, name, rest);
    RefStep(es, t, i, i + 1 + |name|, mark, w, out);
  }

  lemma StrayStands(t: Bytes, i: nat, name: Bytes, rest: Bytes)
    requires Stands(Stray(name), rest) && i <= |t| && t[i..] == [AMP] + name + rest
    ensures var k := i + 1 + |name|;
      k <= |t| && t[i] == AMP && t[i + 1..k] == name && AllAlnum(t[i + 1..k]) && !IsRef(t, i)
  {
    var k := i + 1 + |name|;
    PlainStands(t, i, [AMP], name + rest) by {
      assert t[i..] == [AMP] + (name + rest);
    }
    PlainStands(t, i + 1, name, rest);
    assert rest != [] ==> t[k] == t[k..][0];
    NameEndIs(t, i + 1, k);
  }

  lemma StrayStep(es: seq<Entity>, t: Bytes, i: nat, mark: Byte, out: Bytes)
    requires i < |t| && !IsRef(t, i) && Gives(es, t, i + 1, mark, out)
    ensures Gives(es, t, i, mark, [t[i]] + out)
  {
    assert Unfold(0);
    DecodedPlain(es, t, i, mark);
  }

  lemma StrayGives(es: seq<Entity>, name: Bytes, t: Bytes, i: nat, rest: Bytes, mark: Byte, out: Bytes)
    requires Stands(Stray(name), rest) && i <= |t| && t[i..] == [AMP] + name + rest
    requires Gives(es, t, i + 1 + |name|, mark, out)
    ensures Gives(es, t, i, mark, [AMP] + name + out)
  {
    StrayStands(t, i, name, rest);
    assert forall x :: i + 1 <= x < i + 1 + |name| ==> t[x] == name[x - i - 1];
    PlainSkips(es, t, i + 1, i + 1 + |name|, mark, out);
    StrayStep(es, t, i, mark, name + out);
    assert [AMP] + (name + out) == [AMP] + name + out;
  }

  lemma PlainPieceGives(es: seq<Entity>, p: Piece, t: Bytes, i: nat, rest: Bytes, mark: Byte, out: Bytes) returns (w: Bytes)
    requires p.Plain? && ProperPiece(p, rest) && i <= |t| && t[i..] == WrittenPiece(p) + rest
    requires Gives(es, t, i + |WrittenPiece(p)|, mark, out)
    ensures Gives(es, t, i, mark, w + out) && Means(es, p, w, mark)
  {
    assert ShowPiece(p, 0);
    w := p.text;
    PlainGives(es, p.text, t, i, rest, mark, out);
  }

  lemma RefPieceGives(es: seq<Entity>, p: Piece, t: Bytes, i: nat, rest: Bytes, mark: Byte, out: Bytes) returns (w: Bytes)
    requires p.Ref? && ProperPiece(p, rest) && i <= |t| && t[i..] == WrittenPiece(p) + rest
    requires Gives(es, t, i + |WrittenPiece(p)|, mark, out)
    ensures Gives(es, t, i, mark, w + out) && Means(es, p, w, mark)
  {
    assert ShowPiece(p, 0);
    w := RefGives(es, p.name, t, i, rest, mark, out);
  }

  lemma StrayPieceGives(es: seq<Entity>, p: Piece, t: Bytes, i: nat, rest: Bytes, mark: Byte, out: Bytes) returns (w: Bytes)
    requires p.Stray? && ProperPiece(p, rest) && i <= |t| && t[i..] == WrittenPiece(p) + rest
    requires Gives(es, t, i + |WrittenPiece(p)|, mark, out)
    ensures Gives(es, t, i, mark, w + out) && Means(es, p, w, mark)
  {
    assert ShowPiece(p, 0);
    w := [AMP] + p.name;
    StrayGives(es, p.name, t, i, rest, mark, out);
  }

  lemma PieceGives(es: seq<Entity>, p: Piece, text: Bytes, t: Bytes, i: nat, rest: Bytes, mark: Byte, out: Bytes)
      returns (w: Bytes)
    requires text == WrittenPiece(p) && ProperPiece(p, rest) && i <= |t| && t[i..] == text + rest
    requires Gives(es, t, i + |text|, mark, out)
    ensures Gives(es, t, i, mark, w + out) && Means(es, p, w, mark)
  {
    if p.Plain? {
      w := PlainPieceGives(es, p, t, i, rest, mark, out);
    } else if p.Ref? {
      w := RefPieceGives(es, p, t, i, rest, mark, out);
    } else {
      w := StrayPieceGives(es, p, t, i, rest, mark, out);
    }
  }

  lemma NothingGives(es: seq<Entity>, t: Bytes, i: nat, mark: Byte)
    requires i <= |t| && t[i..] == []
    ensures Gives(es, t, i, mark, [])
  {
    assert i == |t|;
  }

  ghost predicate ShowRest(i: nat, z: int) { true }

  /** The rest of t from i on; folded until ShowRest is mentioned for i. */
  ghost predicate Remains(t: Bytes, i: nat, rest: Bytes) {
    forall z {:trigger ShowRest(i, z)} :: ShowRest(i, z) ==> i <= |t| && t[i..] == rest
  }

  lemma PieceStands(ps: seq<Piece>, t: Bytes, i: nat) returns (text: Bytes, rest: Bytes)
    requires ps != [] && Proper(ps) && Remains(t, i, Written(ps))
    ensures text == WrittenPiece(ps[0]) && rest == Written(ps[1..]) && ProperPiece(ps[0], rest) && Proper(ps[1..])
    ensures Remains(t, i, text + rest) && Remains(t, i + |text|, rest)
  {
    assert ShowRest(i, 0);
    text, rest := WrittenPiece(ps[0]), Written(ps[1..]);
    PlainStands(t, i, text, rest);
  }

  lemma MeanMore(es: seq<Entity>, ps: seq<Piece>, w: Bytes, ws: seq<Bytes>, mark: Byte)
    requires ps != [] && Means(es, ps[0], w, mark) && AllMean(es, ps[1..], ws, mark)
    ensures AllMean(es, ps, [w] + ws, mark) && Concat([w] + ws) == w + Concat(ws)
  {
    assert ([w] + ws)[1..] == ws;
  }

  lemma PieceAdds(es: seq<Entity>, ps: seq<Piece>, text: Bytes, rest: Bytes, t: Bytes, i: nat, mark: Byte,
                  ws: seq<Bytes>, out: Bytes)
      returns (r: seq<Bytes>)
    requires ps != [] && text == WrittenPiece(ps[0]) && ProperPiece(ps[0], rest) && Remains(t, i, text + rest)
    requires Gives(es, t, i + |text|, mark, out) && out == Concat(ws) && AllMean(es, ps[1..], ws, mark)
    ensures Gives(es, t, i, mark, Concat(r)) && AllMean(es, ps, r, mark)
  {
    assert ShowRest(i, 0);
    var w := PieceGives(es, ps[0], text, t, i, rest, mark, out);
    MeanMore(es, ps, w, ws, mark);
    r := [w] + ws;
  }

  lemma {:induction false} PiecesGive(es: seq<Entity>, ps: seq<Piece>, t: Bytes, i: nat, mark: Byte)
      returns (ws: seq<Bytes>, out: Bytes)
    requires Proper(ps) && Remains(t, i, Written(ps))
    ensures Gives(es, t, i, mark, out) && out == Concat(ws) && AllMean(es, ps, ws, mark)
    decreases |ps|
  {
    if ps == [] {
      ws, out := [], [];
      assert ShowRest(i, 0);
      NothingGives(es, t, i, mark);
    } else {
      var text, rest := PieceStands(ps, t, i);
      ws, out := PiecesGive(es, ps[1..], t, i + |text|, mark);
      ws := PieceAdds(es, ps, text, rest, t, i, mark, ws, out);
      out := Concat(ws);
    }
  }

  /** Decoding puts in the place of each piece what it means. */
  lemma DecodesPieces(es: seq<Entity>, ps: seq<Piece>, mark: Byte) returns (ws: seq<Bytes>)
    requires Proper(ps)
    ensures Decoded(es, Written(ps), 0, mark) == Concat(ws) && AllMean(es, ps, ws, mark)
  {
    var out;
    ws, out := PiecesGive(es, ps, Written(ps), 0, mark);
    assert Unfold(0);
  }

  /** The piece a non-empty text starts with. */
  lemma FirstPiece(t: Bytes) returns (p: Piece, rest: Bytes)
    requires t != []
    ensures t == WrittenPiece(p) + rest && |rest| < |t| && ProperPiece(p, rest)
  {
    if t[0] != AMP {
      p, rest := Plain([t[0]]), t[1..];
    } else {
      p, rest := AmpPiece(t);
    }
  }

  lemma AmpPiece(t: Bytes) returns (p: Piece, rest: Bytes)
    requires t != [] && t[0] == AMP
    ensures t == WrittenPiece(p) + rest && |rest| < |t| && ProperPiece(p, rest)
  {
    var m := NameEnd(t, 1);
    var name := t[1..m];
    assert t[..m] == [AMP] + name && AllAlnum(name);
    if m < |t| && t[m] == SEMI {
      p, rest := Ref(name), t[m + 1..];
      assert t == t[..m] + [SEMI] + rest;
    } else {
      p, rest := Stray(name), t[m..];
      assert t == t[..m] + rest;
    }
  }

  /** Every text is made of such pieces. */
  lemma {:induction false} AllPieces(t: Bytes) returns (ps: seq<Piece>)
    ensures Proper(ps) && Written(ps) == t
    decreases |t|
  {
    if t == [] {
      ps := [];
    } else {
      var p, rest := FirstPiece(t);
      ps := AllPieces(rest);
      assert ([p] + ps)[1..] == ps;
      ps := [p] + ps;
    }
  }

  // The buffer: b[..p] is written, b[last..q] waits to be, and t is decoded up to q.

  ghost predicate ShowMid(q: nat, z: int) { true }

  ghost predicate Mid(es: seq<Entity>, b: Bytes, t: Bytes, goal: Bytes, p: nat, last: nat, q: nat) {
    && p <= last <= q <= |t| <= |b|
    && forall z {:trigger ShowMid(q, z)} :: ShowMid(q, z) ==>
         b[q..|t|] == t[q..] && goal == b[..p] + b[last..q] + Decoded(es, t, q, 0)
  }

  lemma MidSame(es: seq<Entity>, b: Bytes, t: Bytes, goal: Bytes, p: nat, last: nat, q: nat)
    requires Mid(es, b, t, goal, p, last, q)
    ensures forall x :: q <= x < |t| ==> b[x] == t[x]
  {
    assert ShowMid(q, 0);
    forall x | q <= x < |t| ensures b[x] == t[x] { assert b[q..|t|][x - q] == t[q..][x - q]; }
  }

  lemma Rejoin(front: Bytes, a: Bytes, b: Bytes, rest: Bytes)
    ensures front + a + (b + rest) == front + (a + b) + rest
  {
  }

  lemma MidPlain(es: seq<Entity>, b: Bytes, t: Bytes, goal: Bytes, p: nat, last: nat, q: nat, k: nat)
    requires Mid(es, b, t, goal, p, last, q) && q <= k <= |t| && forall x :: q <= x < k ==> b[x] != AMP
    ensures Mid(es, b, t, goal, p, last, k)
  {
    MidSame(es, b, t, goal, p, last, q);
    PlainSkipped(es, t, q, k, 0);
    assert b[last..k] == b[last..q] + t[q..k] && b[k..|t|] == t[k..];
    assert ShowMid(q, 0);
    Rejoin(b[..p], b[last..q], t[q..k], Decoded(es, t, k, 0));
  }

  lemma MidAmp(es: seq<Entity>, b: Bytes, t: Bytes, goal: Bytes, p: nat, last: nat, q: nat)
    requires Mid(es, b, t, goal, p, last, q) && q < |t| && !IsRef(t, q)
    ensures Mid(es, b, t, goal, p, last, q + 1)
  {
    assert ShowMid(q, 0);
    DecodedPlain(es, t, q, 0);
    assert b[q] == b[q..|t|][0] == t[q];
    assert b[last..q + 1] == b[last..q] + [t[q]];
  }

  lemma MidUnknown(es: seq<Entity>, b: Bytes, t: Bytes, goal: Bytes, p: nat, last: nat, q: nat, m: nat)
    requires Mid(es, b, t, goal, p, last, q) && q < m < |t| && IsRef(t, q) && m == NameEnd(t, q + 1)
    requires Find(es, t[q + 1..m]).None?
    ensures Mid(es, b[m := 0], t, goal, p, last, m + 1)
  {
    MidSame(es, b, t, goal, p, last, q);
    NulStands(b, t, p, last, q, m);
    DecodedRef(es, t, q, m, 0);
    assert ShowMid(q, 0);
    Rejoin(b[..p], b[last..q], t[q..m] + [0], Decoded(es, t, m + 1, 0));
  }

  lemma NulStands(b: Bytes, t: Bytes, p: nat, last: nat, q: nat, m: nat)
    requires p <= last <= q < m < |t| <= |b| && forall x :: q <= x < |t| ==> b[x] == t[x]
    ensures var c := b[m := 0];
      c[..p] == b[..p] && c[last..m + 1] == b[last..q] + (t[q..m] + [0]) && c[m + 1..|t|] == t[m + 1..]
  {
  }

  lemma MidKnown(es: seq<Entity>, b: Bytes, c: Bytes, t: Bytes, goal: Bytes, p: nat, last: nat, q: nat, m: nat, p1: nat, e: Entity)
    requires Mid(es, b, t, goal, p, last, q) && q < m < |t| && IsRef(t, q) && m == NameEnd(t, q + 1)
    requires Find(es, t[q + 1..m]) == Some(e)
    requires |c| == |b| && p1 <= m + 1 && c[..p1] == b[..p] + b[last..q] + UnicodeToUtf8(e.unicode)
    requires c[m + 1..|t|] == b[m + 1..|t|]
    ensures Mid(es, c, t, goal, p1, m + 1, m + 1)
  {
    assert ShowMid(q, 0);
    DecodedRef(es, t, q, m, 0);
    assert b[m + 1..|t|] == b[q..|t|][m + 1 - q..] == t[m + 1..];
  }

  /** memchr for an ampersand. */
  method FindAmp(buf: array<Byte>, n: nat, e: nat) returns (k: nat)
    requires n <= e <= buf.Length
    ensures n <= k <= e && (k < e ==> buf[k] == AMP)
    ensures forall x :: n <= x < k ==> buf[x] != AMP
  {
    k := n;
    while k < e && buf[k] != AMP
      invariant n <= k <= e && forall x :: n <= x < k ==> buf[x] != AMP
    {
      k := k + 1;
    }
  }

  /** memcpy of buf[from..end] within the buffer, downwards. */
  method Copy(buf: array<Byte>, to: nat, from: nat, end: nat) returns (n: nat)
    requires to <= from <= end <= buf.Length
    modifies buf
    ensures n == to + (end - from)
    ensures buf[..n] == old(buf[..to] + buf[from..end]) && buf[n..] == old(buf[n..])
  {
    n := to + (end - from);
    ghost var front, moved := buf[..to], buf[from..end];
    forall x | to <= x < n { buf[x] := buf[from + (x - to)]; }
    assert buf[..n] == front + moved;
  }

  lemma LastOctet(v: bv16)
    ensures var c := UnicodeToUtf8(v); |c| == 3 ==> c[2] != AMP
  {
    assert 0x80 | (v & 0x3f) != 0x26;
  }

  method WriteChar(buf: array<Byte>, p: nat, v: bv16) returns (n: nat)
    requires p + |UnicodeToUtf8(v)| <= buf.Length
    modifies buf
    ensures n == |UnicodeToUtf8(v)|
    ensures buf[..p + n] == old(buf[..p]) + UnicodeToUtf8(v) && buf[p + n..] == old(buf[p + n..])
  {
    var c := UnicodeToUtf8(v);
    ghost var before := buf[..p];
    n := |c|;
    forall x | 0 <= x < n { buf[p + x] := c[x]; }
    assert buf[..p] == before;
    assert buf[..p + n] == before + c;
  }

  /** What two buffers share from lo on they share from hi on. */
  lemma SameRest(b: Bytes, c: Bytes, lo: nat, hi: nat)
    requires lo <= hi <= |b| == |c| && b[lo..] == c[lo..]
    ensures b[hi..] == c[hi..] && (hi < |b| ==> b[hi] == c[hi])
  {
    assert b[hi..] == b[lo..][hi - lo..] && c[hi..] == c[lo..][hi - lo..];
    if hi < |b| {
      assert b[hi] == b[hi..][0];
    }
  }

  /** The character at m, the place of the semicolon, after the text before a reference was
      moved up to p1 and c put behind it. */
  lemma AtSemicolon(b0: Bytes, b1: Bytes, b2: Bytes, p1: nat, c: Bytes, m: nat)
    requires |b0| == |b1| == |b2| && p1 + 2 <= m < |b0| && 1 <= |c| <= 3 && (|c| == 3 ==> c[2] != AMP)
    requires b1[p1..] == b0[p1..] && b2[p1 + |c|..] == b1[p1 + |c|..] && c == b2[p1..p1 + |c|]
    ensures b0[m] != AMP ==> b2[m] != AMP
    ensures b2[m + 1..] == b0[m + 1..]
  {
    SameRest(b1, b0, p1, m);
    SameRest(b1, b0, p1, m + 1);
    SameRest(b2, b1, p1 + |c|, m + 1);
    if p1 + |c| <= m {
      SameRest(b2, b1, p1 + |c|, m);
    } else {
      assert b2[m] == c[2];
    }
  }

  /** What comes before a reference, and the character it stands for. */
  method Emit(buf: array<Byte>, p: nat, last: nat, q: nat, m: nat, v: bv16) returns (p1: nat)
    requires p <= last <= q && q + 2 <= m < buf.Length
    modifies buf
    ensures p1 <= m + 1 && buf[..p1] == old(buf[..p] + buf[last..q]) + UnicodeToUtf8(v)
    ensures buf[m + 1..] == old(buf[m + 1..])
    ensures old(buf[m]) != AMP ==> buf[m] != AMP
  {
    ghost var b0 := buf[..];
    ghost var front := buf[..p] + buf[last..q];
    var k := Copy(buf, p, last, q);
    ghost var b1 := buf[..];
    assert buf[..k] == front && b1[k..] == b0[k..];
    var n := WriteChar(buf, k, v);
    p1 := k + n;
    ghost var c := UnicodeToUtf8(v);
    assert buf[..p1] == front + c && buf[k..p1] == c;
    LastOctet(v);
    AtSemicolon(b0, b1, buf[..], k, c, m);
  }

  /** No name is left open at the end of the text. */
  ghost predicate Closed(t: Bytes) {
    forall q :: 0 <= q < |t| && t[q] == AMP ==> NameEnd(t, q + 1) < |t|
  }

  /** What stands in the buffer after the text, left from earlier pages, does not prolong a
      name that the text leaves open. */
  ghost predicate Ended(t: Bytes, stale: Bytes) {
    Closed(t)
    || (stale != [] && !IsAlnum(stale[0]) && stale[0] != SEMI && (stale[0] == HASH ==> t[|t| - 1] != AMP))
  }

  /** From the ampersand at q the code reads no byte outside the buffer, writes none outside
      the text, and goes on no further than the end of the text. */
  predicate StaysInside(b: Bytes, sz: nat, q: nat)
    requires q < sz <= |b|
  {
    && q + 1 < |b|
    && if b[q + 1] == HASH then q + 2 <= sz
       else var n := NameEnd(b, q + 1); n < |b| && n <= sz && (b[n] == SEMI ==> n < sz)
  }

  lemma {:induction false} NameEndBeyond(b: Bytes, sz: nat, i: nat)
    requires i <= sz <= |b|
    ensures var n := NameEnd(b[..sz], i); if n < sz then NameEnd(b, i) == n else NameEnd(b, i) == NameEnd(b, sz)
    decreases sz - i
  {
    if i < sz && IsAlnum(b[i]) {
      NameEndBeyond(b, sz, i + 1);
    }
  }

  ghost predicate EndedAt(t: Bytes, stale: Bytes, q: nat)
    requires q < |t|
  {
    || NameEnd(t, q + 1) < |t|
    || (stale != [] && !IsAlnum(stale[0]) && stale[0] != SEMI && (stale[0] == HASH ==> q + 1 < |t|))
  }

  lemma StaysInsideAt(b: Bytes, sz: nat, q: nat)
    requires q < sz <= |b| && b[q] == AMP
    ensures StaysInside(b, sz, q) <==> EndedAt(b[..sz], b[sz..], q)
  {
    var t, n := b[..sz], NameEnd(b[..sz], q + 1);
    NameEndBeyond(b, sz, q + 1);
    if q + 1 < sz && n == sz {
      assert IsAlnum(t[q + 1]);
    }
  }

  lemma EndedEverywhere(t: Bytes, stale: Bytes)
    ensures Ended(t, stale) <==> forall q :: 0 <= q < |t| && t[q] == AMP ==> EndedAt(t, stale, q)
  {
    if !Ended(t, stale) {
      var q :| 0 <= q < |t| && t[q] == AMP && NameEnd(t, q + 1) == |t|;
      if stale != [] && stale[0] == HASH && EndedAt(t, stale, q) {
        assert !EndedAt(t, stale, |t| - 1);
      }
    }
  }

  /** Ended is exact: with it the conversion stays inside, and without it some ampersand
      makes the code read, write or search beyond the end. */
  lemma EndedExactly(b: Bytes, sz: nat)
    requires sz <= |b|
    ensures Ended(b[..sz], b[sz..]) <==> forall q :: 0 <= q < sz && b[q] == AMP ==> StaysInside(b, sz, q)
  {
    var t, stale := b[..sz], b[sz..];
    EndedEverywhere(t, stale);
    forall q | 0 <= q < sz && b[q] == AMP
      ensures t[q] == AMP && (StaysInside(b, sz, q) <==> EndedAt(t, stale, q))
    {
      StaysInsideAt(b, sz, q);
    }
    if forall q :: 0 <= q < sz && b[q] == AMP ==> StaysInside(b, sz, q) {
      assert forall q :: 0 <= q < |t| && t[q] == AMP ==> EndedAt(t, stale, q);
    }
  }

  /** The page "&a" in a buffer that goes on with ";" has its NUL written behind it; one that
      goes on with "b;" is searched from behind its end. */
  lemma OpenNameRunsOn()
    ensures !StaysInside([AMP, 0x61, SEMI], 2, 0) && !StaysInside([AMP, 0x61, 0x62, SEMI], 2, 0)
  {
    NameEndIs([AMP, 0x61, SEMI], 1, 2);
    NameEndIs([AMP, 0x61, 0x62, SEMI], 1, 3);
  }

  ghost predicate Named(es: seq<Entity>) { forall k :: 0 <= k < |es| ==> es[k].ident != [] }

  /** Where the scan stands: q is decoded up to, n is where it goes on. */
  ghost predicate Scanning(es: seq<Entity>, b: Bytes, t: Bytes, goal: Bytes, p: nat, last: nat, n: nat, q: nat) {
    Mid(es, b, t, goal, p, last, q) && n <= q <= n + 1 && (n < q ==> b[n] != AMP)
  }

  /** The end of the name that starts at s. */
  method FindNameEnd(buf: array<Byte>, ghost t: Bytes, s: nat) returns (n: nat)
    requires s <= |t| <= buf.Length && forall x :: s <= x < |t| ==> buf[x] == t[x]
    requires NameEnd(t, s) < |t| || (|t| < buf.Length && !IsAlnum(buf[|t|]))
    ensures n == NameEnd(t, s) && n < buf.Length
  {
    n := s;
    while IsAlnum(buf[n])
      invariant s <= n <= NameEnd(t, s)
      decreases |t| - n
    {
      n := n + 1;
    }
  }

  /** An ampersand at q that starts no reference; the scan goes on at n. */
  lemma NoReference(es: seq<Entity>, b: Bytes, t: Bytes, goal: Bytes, p: nat, last: nat, q: nat, n: nat)
    requires Mid(es, b, t, goal, p, last, q) && q < n <= |t| && !IsRef(t, q)
    requires forall x :: q < x < n ==> t[x] != AMP
    ensures Scanning(es, b, t, goal, p, last, n, n)
  {
    MidSame(es, b, t, goal, p, last, q);
    MidAmp(es, b, t, goal, p, last, q);
    MidPlain(es, b, t, goal, p, last, q + 1, n);
  }

  /** A reference from q to m. */
  method Replace(buf: array<Byte>, table: HashTable, ghost es: seq<Entity>, ghost t: Bytes, ghost goal: Bytes,
                 p: nat, last: nat, ghost q: nat, s: nat, m: nat) returns (p1: nat, last1: nat)
    requires table.Holds(es) && Named(es) && s == q + 1
    requires Mid(es, buf[..], t, goal, p, last, q) && q < m < |t| && IsRef(t, q) && m == NameEnd(t, q + 1)
    modifies buf
    ensures Scanning(es, buf[..], t, goal, p1, last1, m, m + 1)
    ensures forall x :: |t| <= x < buf.Length ==> buf[x] == old(buf[x])
  {
    ghost var b0 := buf[..];
    MidSame(es, b0, t, goal, p, last, q);
    assert buf[s..m] == t[q + 1..m];
    var r := table.Lookup(buf[s..m], es);
    FindNames(es, t[q + 1..m]);
    p1, last1 := p, last;
    buf[m] := 0;
    match r {
      case None =>
        MidUnknown(es, b0, t, goal, p, last, q, m);
        assert buf[..] == b0[m := 0];
      case Some(e) =>
        p1 := EmitAt(buf, es, t, goal, b0, p, last, q, s, m, e);
        last1 := m + 1;
    }
  }

  /** The search goes on at the place of the semicolon, which the character may have taken. */
  method EmitAt(buf: array<Byte>, ghost es: seq<Entity>, ghost t: Bytes, ghost goal: Bytes, ghost b0: Bytes,
                p: nat, last: nat, ghost q: nat, s: nat, m: nat, e: Entity) returns (p1: nat)
    requires Mid(es, b0, t, goal, p, last, q) && s == q + 1 < m < |t| && IsRef(t, q) && m == NameEnd(t, q + 1)
    requires Find(es, t[q + 1..m]) == Some(e) && buf[..] == b0[m := 0]
    modifies buf
    ensures Mid(es, buf[..], t, goal, p1, m + 1, m + 1) && buf[m] != AMP
    ensures forall x :: m < x < buf.Length ==> buf[x] == old(buf[x])
  {
    assert buf[..p] == b0[..p] && buf[last..q] == b0[last..q] && buf[m + 1..] == b0[m + 1..];
    p1 := Emit(buf, p, last, s - 1, m, e.unicode);
    ghost var c := buf[..];
    assert c[..p1] == buf[..p1] && c[m + 1..] == b0[m + 1..];
    forall x | m < x < |c| ensures c[x] == b0[x] { assert c[x] == c[m + 1..][x - m - 1] == b0[m + 1..][x - m - 1]; }
    MidKnown(es, b0, c, t, goal, p, last, q, m, p1, e);
  }

  /** An ampersand at q, not followed by a hash. */
  method NamedReference(buf: array<Byte>, table: HashTable, ghost es: seq<Entity>, ghost t: Bytes, ghost goal: Bytes,
                        p: nat, last: nat, ghost q: nat, s: nat) returns (p1: nat, last1: nat, n: nat, ghost q1: nat)
    requires table.Holds(es) && Named(es)
    requires Mid(es, buf[..], t, goal, p, last, q) && s == q + 1 <= |t| && t[q] == AMP
    requires NameEnd(t, s) < |t| || (|t| < buf.Length && !IsAlnum(buf[|t|]) && buf[|t|] != SEMI)
    modifies buf
    ensures Scanning(es, buf[..], t, goal, p1, last1, n, q1) && q < n <= q1 <= |t|
    ensures forall x :: |t| <= x < buf.Length ==> buf[x] == old(buf[x])
  {
    MidSame(es, buf[..], t, goal, p, last, q);
    p1, last1 := p, last;
    n := FindNameEnd(buf, t, s);
    q1 := n;
    if buf[n] != SEMI {
      NoReference(es, buf[..], t, goal, p, last, q, n);
    } else {
      q1 := n + 1;
      p1, last1 := Replace(buf, table, es, t, goal, p, last, q, s, n);
    }
  }

  /** One ampersand, at q. */
  method Reference(buf: array<Byte>, table: HashTable, ghost es: seq<Entity>, ghost t: Bytes, ghost goal: Bytes,
                   p: nat, last: nat, q: nat) returns (p1: nat, last1: nat, n: nat, ghost q1: nat)
    requires table.Holds(es) && Named(es)
    requires Mid(es, buf[..], t, goal, p, last, q) && q < |t| && t[q] == AMP && EndedAt(t, buf[|t|..], q)
    modifies buf
    ensures Scanning(es, buf[..], t, goal, p1, last1, n, q1) && q < n <= q1 <= |t|
    ensures forall x :: |t| <= x < buf.Length ==> buf[x] == old(buf[x])
  {
    MidSame(es, buf[..], t, goal, p, last, q);
    assert buf.Length > |t| ==> buf[|t|] == buf[|t|..][0];
    p1, last1, n := p, last, q + 1;
    var s := n;
    if buf[s] == HASH {
      n := n + 1;
      q1 := n;
      NoReference(es, buf[..], t, goal, p, last, q, n);
    } else {
      p1, last1, n, q1 := NamedReference(buf, table, es, t, goal, p, last, q, s);
    }
  }

  lemma MidStarts(es: seq<Entity>, b: Bytes, t: Bytes)
    requires |t| <= |b| && b[..|t|] == t
    ensures Scanning(es, b, t, Decoded(es, t, 0, 0), 0, 0, 0, 0)
  {
    assert b[..0] + b[0..0] + Decoded(es, t, 0, 0) == Decoded(es, t, 0, 0);
  }

  /** The last stretch is moved up behind what is written. */
  lemma MidEnds(es: seq<Entity>, b: Bytes, c: Bytes, t: Bytes, goal: Bytes, p: nat, last: nat, n: nat)
    requires Mid(es, b, t, goal, p, last, |t|) && |c| == |b| && n == p + (|t| - last)
    requires c[..n] == b[..p] + b[last..|t|] && c[n..] == b[n..]
    ensures n <= |t| && c[..n] == goal && c[|t|..] == b[|t|..]
  {
    assert ShowMid(|t|, 0);
    SameRest(c, b, n, |t|);
    assert b[..p] + b[last..|t|] + [] == b[..p] + b[last..|t|];
  }

  lemma PiecesOf(es: seq<Entity>, t: Bytes) returns (ps: seq<Piece>, ws: seq<Bytes>)
    ensures Proper(ps) && Written(ps) == t && AllMean(es, ps, ws, 0) && Decoded(es, t, 0, 0) == Concat(ws)
  {
    ps := AllPieces(t);
    ws := DecodesPieces(es, ps, 0);
  }

  /** lm_parser_entityconv on the first sz bytes of the buffer. */
  method Convert(buf: array<Byte>, sz: nat, table: HashTable, ghost es: seq<Entity>)
      returns (newsz: nat, ghost ps: seq<Piece>, ghost ws: seq<Bytes>)
    requires table.Holds(es) && Named(es)
    requires sz <= buf.Length && Ended(buf[..sz], buf[sz..])
    modifies buf
    ensures newsz <= sz
    ensures buf[..newsz] == Decoded(es, old(buf[..sz]), 0, 0) && buf[sz..] == old(buf[sz..])
    ensures Proper(ps) && old(buf[..sz]) == Written(ps)
    ensures AllMean(es, ps, ws, 0) && buf[..newsz] == Concat(ws)
  {
    ghost var t, stale := buf[..sz], buf[sz..];
    ghost var goal := Decoded(es, t, 0, 0);
    var p: nat, last: nat, n: nat := 0, 0, 0;
    ghost var q: nat := 0;
    EndedEverywhere(t, stale);
    MidStarts(es, buf[..], t);
    while true
      invariant Scanning(es, buf[..], t, goal, p, last, n, q) && n <= sz && buf[sz..] == stale
      decreases sz - n
    {
      var k := FindAmp(buf, n, sz);
      MidPlain(es, buf[..], t, goal, p, last, q, k);
      if k == sz {
        break;
      }
      MidSame(es, buf[..], t, goal, p, last, k);
      p, last, n, q := Reference(buf, table, es, t, goal, p, last, k);
    }
    ghost var b := buf[..];
    newsz := Copy(buf, p, last, sz);
    MidEnds(es, b, buf[..], t, goal, p, last, newsz);
    ps, ws := PiecesOf(es, t);
    assert buf[..newsz] == buf[..][..newsz] && buf[sz..] == buf[..][sz..] && b[sz..] == stale;
  }
}
