/** internal/client/sign.go: the canonical bytes of an env section.
    A string here is its bytes, one character a byte; `uint64(len(s))` is its length. SHA-256
    is symbolic: a digest is the buffer it was taken of, so two digests are equal exactly when
    the buffers are. */
module Framing {
  import opened Wrappers
  import opened Text
  import opened SortedKeys

  datatype Digest = Sha256(preimage: string)

  const TAG_V1 := "gitseal-section-v1\0"
  const TAG_V2 := "gitseal-section-v2\0"

  // ---------------------------------------------------------------- big-endian integers

  const TWO64 := 0x1_0000_0000_0000_0000

  type uint64 = n: int | 0 <= n < TWO64

  function Pow256(k: nat): nat {
    if k == 0 then 1 else 256 * Pow256(k - 1)
  }

  /** Puts the bytes of n in front of `tail`, the least significant one rightmost, up to eight. */
  function BigEndian(n: nat, tail: string): (b: string)
    requires |tail| <= 8
    ensures |b| == 8
    decreases 8 - |tail|
  {
    if |tail| == 8 then tail else BigEndian(n / 256, [(n % 256) as char] + tail)
  }

  /** binary.BigEndian.PutUint64 */
  function U64(n: uint64): (b: string)
    ensures |b| == 8
  {
    BigEndian(n, "")
  }

  function Number(b: string): nat {
    if b == "" then 0 else 256 * Number(b[..|b| - 1]) + b[|b| - 1] as int
  }

  /** The conversion uint64(projectID). */
  function AsUint64(id: int64): uint64 {
    if id < 0 then id + TWO64 else id
  }

  lemma {:induction false} BigEndianShape(n: nat, tail: string)
    requires |tail| <= 8 && n < Pow256(8 - |tail|)
    ensures var b := BigEndian(n, tail);
      b[8 - |tail|..] == tail && Number(b[..8 - |tail|]) == n
    decreases 8 - |tail|
  {
    if |tail| < 8 {
      var b := BigEndian(n, tail);
      var k := 8 - |tail|;
      BigEndianShape(n / 256, [(n % 256) as char] + tail);
      assert b[k - 1..] == [b[k - 1]] + b[k..];
      assert b[..k][..k - 1] == b[..k - 1];
    }
  }

  lemma NumberOfU64(n: uint64)
    ensures Number(U64(n)) == n
  {
    assert Pow256(8) == TWO64;
    BigEndianShape(n, "");
    assert U64(n)[..8] == U64(n);
  }

  // ---------------------------------------------------------------- the frame

  /** uint64(len(s)); lengths of Go values are below 2^63, so this is the length itself. */
  function Len64(n: nat): uint64 {
    n % TWO64
  }

  function PutStr(s: string): string {
    U64(Len64(|s|)) + s
  }

  function PutPairs(keys: seq<string>, entries: map<string, string>): string
    requires forall k :: k in keys ==> k in entries
  {
    if keys == [] then ""
    else PutStr(keys[0]) + PutStr(entries[keys[0]]) + PutPairs(keys[1..], entries)
  }

  /** The key count, then the pairs in key order. */
  ghost function Suffix(entries: map<string, string>): string {
    var keys := Sorted(entries.Keys);
    assert forall k :: k in keys ==> k in Elements(keys);
    U64(Len64(|keys|)) + PutPairs(keys, entries)
  }

  /** What the two canonical functions share. */
  ghost function Body(env: string, entries: map<string, string>): string {
    PutStr(env) + Suffix(entries)
  }

  ghost function FrameV3(projectID: int64, env: string, entries: map<string, string>): string
  {
    TAG_V1 + U64(AsUint64(projectID)) + Body(env, entries)
  }

  ghost function FrameV4(pubkey: string, env: string, entries: map<string, string>): string {
    TAG_V2 + PutStr(pubkey) + Body(env, entries)
  }

  ghost function SectionDigest(projectID: int64, env: string, entries: map<string, string>): Digest
  {
    Sha256(FrameV3(projectID, env, entries))
  }

  ghost function SectionDigestV4(pubkey: string, env: string, entries: map<string, string>): Digest {
    Sha256(FrameV4(pubkey, env, entries))
  }

  lemma PairStep(out: string, keys: seq<string>, i: nat, entries: map<string, string>)
    requires i < |keys| && forall k :: k in keys ==> k in entries
    ensures out + PutPairs(keys[i..], entries)
         == ((out + PutStr(keys[i])) + PutStr(entries[keys[i]])) + PutPairs(keys[i + 1..], entries)
  {
    assert keys[i..][1..] == keys[i + 1..];
    var k, v, rest := PutStr(keys[i]), PutStr(entries[keys[i]]), PutPairs(keys[i + 1..], entries);
    assert PutPairs(keys[i..], entries) == (k + v) + rest;
    Assoc(out, k + v, rest);
    Assoc(out, k, v);
  }

  method PutEntries(buf: string, entries: map<string, string>) returns (out: string)
    ensures out == buf + Suffix(entries)
  {
    var keys := CollectAndSort(entries.Keys);
    assert forall k :: k in keys ==> k in Elements(keys);
    assert keys[0..] == keys;
    out := buf + U64(Len64(|keys|));
    ghost var start := out;
    for i := 0 to |keys|
      invariant out + PutPairs(keys[i..], entries) == start + PutPairs(keys, entries)
    {
      PairStep(out, keys, i, entries);
      out := out + PutStr(keys[i]);
      out := out + PutStr(entries[keys[i]]);
    }
    Assoc(buf, U64(Len64(|keys|)), PutPairs(keys, entries));
  }

  method CanonicalSectionBytes(projectID: int64, env: string, entries: map<string, string>) returns (sum: Digest)
    ensures sum == SectionDigest(projectID, env, entries)
  {
    var buf := TAG_V1;
    buf := buf + U64(AsUint64(projectID));
    buf := buf + PutStr(env);
    buf := PutEntries(buf, entries);
    Assoc(TAG_V1 + U64(AsUint64(projectID)), PutStr(env), Suffix(entries));
    sum := Sha256(buf);
  }

  method CanonicalSectionBytesV4(pubkey: string, env: string, entries: map<string, string>) returns (sum: Digest)
    ensures sum == SectionDigestV4(pubkey, env, entries)
  {
    var buf := TAG_V2;
    buf := buf + PutStr(pubkey);
    buf := buf + PutStr(env);
    buf := PutEntries(buf, entries);
    Assoc(TAG_V2 + PutStr(pubkey), PutStr(env), Suffix(entries));
    sum := Sha256(buf);
  }

  // ---------------------------------------------------------------- the decoder

  /** Go's `len` is a signed 64-bit number, so every length fits. */
  predicate Fits(s: string) {
    |s| <= INT64_MAX
  }

  ghost predicate AllFit(env: string, entries: map<string, string>) {
    && Fits(env) && |entries| <= INT64_MAX
    && forall k :: k in entries ==> Fits(k) && Fits(entries[k])
  }

  datatype Parsed<T> = Bad | Parsed(value: T, rest: string)

  function TakeU64(b: string): Parsed<nat> {
    if |b| < 8 then Bad else Parsed(Number(b[..8]), b[8..])
  }

  function TakeStr(b: string): Parsed<string> {
    match TakeU64(b)
    case Bad => Bad
    case Parsed(n, rest) => if |rest| < n then Bad else Parsed(rest[..n], rest[n..])
  }

  function TakePairs(count: nat, b: string): Parsed<map<string, string>>
    decreases count
  {
    if count == 0 then Parsed(map[], b)
    else
      match TakeStr(b)
      case Bad => Bad
      case Parsed(k, b1) =>
        match TakeStr(b1)
        case Bad => Bad
        case Parsed(v, b2) =>
          match TakePairs(count - 1, b2)
          case Bad => Bad
          case Parsed(m, b3) => Parsed(m[k := v], b3)
  }

  datatype Section = Numeric(id: nat, env: string, entries: map<string, string>)
                   | Keyed(pubkey: string, env: string, entries: map<string, string>)

  function TakeBody(b: string): Parsed<(string, map<string, string>)> {
    match TakeStr(b)
    case Bad => Bad
    case Parsed(env, b1) =>
      match TakeU64(b1)
      case Bad => Bad
      case Parsed(count, b2) =>
        match TakePairs(count, b2)
        case Bad => Bad
        case Parsed(m, b3) => Parsed((env, m), b3)
  }

  /** Reads a signed buffer back, whatever order its pairs are in. */
  function Decode(b: string): Option<Section> {
    if TAG_V1 <= b then
      match TakeU64(b[|TAG_V1|..])
      case Bad => None
      case Parsed(id, b1) =>
        (match TakeBody(b1)
         case Bad => None
         case Parsed(s, _) => Some(Numeric(id, s.0, s.1)))
    else if TAG_V2 <= b then
      match TakeStr(b[|TAG_V2|..])
      case Bad => None
      case Parsed(pubkey, b1) =>
        (match TakeBody(b1)
         case Bad => None
         case Parsed(s, _) => Some(Keyed(pubkey, s.0, s.1)))
    else None
  }

  lemma TakeU64Of(n: uint64, rest: string)
    ensures TakeU64(U64(n) + rest) == Parsed(n, rest)
  {
    NumberOfU64(n);
    assert (U64(n) + rest)[..8] == U64(n);
  }

  lemma LenFits(n: nat)
    requires n <= INT64_MAX
    ensures Len64(n) == n
  {
  }

  lemma TakeStrOf(s: string, rest: string)
    requires Fits(s)
    ensures TakeStr(PutStr(s) + rest) == Parsed(s, rest)
  {
    LenFits(|s|);
    var h := U64(Len64(|s|));
    var b := PutStr(s) + rest;
    assert b == h + (s + rest);
    TakeU64Of(Len64(|s|), s + rest);
    assert TakeU64(b) == Parsed(|s|, s + rest);
    assert (s + rest)[..|s|] == s && (s + rest)[|s|..] == rest;
  }

  ghost predicate PairsFit(keys: seq<string>, entries: map<string, string>) {
    forall k :: k in keys ==> k in entries && Fits(k) && Fits(entries[k])
  }

  lemma TakePairsStep(count: nat, b: string, k: string, b1: string, v: string, b2: string,
                      m: map<string, string>, b3: string)
    requires TakeStr(b) == Parsed(k, b1) && TakeStr(b1) == Parsed(v, b2) && TakePairs(count, b2) == Parsed(m, b3)
    ensures TakePairs(count + 1, b) == Parsed(m[k := v], b3)
  {
  }

  lemma {:induction false} TakePairsOf(keys: seq<string>, entries: map<string, string>, rest: string)
    requires PairsFit(keys, entries)
    ensures TakePairs(|keys|, PutPairs(keys, entries) + rest)
         == Parsed(map k | k in keys :: entries[k], rest)
  {
    if keys == [] {
      assert PutPairs(keys, entries) + rest == rest;
    } else {
      var k, v := keys[0], entries[keys[0]];
      var tail := PutPairs(keys[1..], entries) + rest;
      assert PairsFit(keys[1..], entries);
      TakePairsOf(keys[1..], entries, rest);
      PairFirst(keys, entries, rest);
      TakeStrOf(k, PutStr(v) + tail);
      TakeStrOf(v, tail);
      var m := map x | x in keys[1..] :: entries[x];
      TakePairsStep(|keys[1..]|, PutStr(k) + (PutStr(v) + tail), k, PutStr(v) + tail, v, tail, m, rest);
      MapFirst(keys, entries);
    }
  }

  lemma MapFirst(keys: seq<string>, entries: map<string, string>)
    requires keys != [] && forall k :: k in keys ==> k in entries
    ensures (map x | x in keys[1..] :: entries[x])[keys[0] := entries[keys[0]]] == map x | x in keys :: entries[x]
  {
    assert keys == [keys[0]] + keys[1..];
  }

  lemma PairFirst(keys: seq<string>, entries: map<string, string>, rest: string)
    requires keys != [] && forall k :: k in keys ==> k in entries
    ensures PutPairs(keys, entries) + rest
         == PutStr(keys[0]) + (PutStr(entries[keys[0]]) + (PutPairs(keys[1..], entries) + rest))
  {
    var p, q, tail := PutStr(keys[0]), PutStr(entries[keys[0]]), PutPairs(keys[1..], entries);
    Assoc(p + q, tail, rest);
    Assoc(p, q, tail + rest);
  }

  lemma TakeBodyWith(env: string, count: uint64, pairs: string, m: map<string, string>)
    requires Fits(env) && TakePairs(count, pairs) == Parsed(m, "")
    ensures TakeBody(PutStr(env) + (U64(count) + pairs)) == Parsed((env, m), "")
  {
    TakeStrOf(env, U64(count) + pairs);
    TakeU64Of(count, pairs);
  }

  lemma SortedKeysOf(entries: map<string, string>)
    ensures var keys := Sorted(entries.Keys);
      && |keys| == |entries|
      && (forall k :: k in keys <==> k in entries)
      && (map k | k in keys :: entries[k]) == entries
  {
    var keys := Sorted(entries.Keys);
    SortedDistinct(entries.Keys);
    assert forall k :: k in keys <==> k in Elements(keys);
    assert |entries.Keys| == |entries|;
  }

  lemma TakeListing(env: string, count: uint64, keys: seq<string>, entries: map<string, string>, pairs: string)
    requires Fits(env) && PairsFit(keys, entries) && pairs == PutPairs(keys, entries) && count == |keys|
    requires (map k | k in keys :: entries[k]) == entries
    ensures TakeBody(PutStr(env) + (U64(count) + pairs)) == Parsed((env, entries), "")
  {
    TakePairsOf(keys, entries, "");
    Assoc(pairs, "", "");
    TakeBodyWith(env, count, pairs, entries);
  }

  lemma TakeBodyOf(env: string, entries: map<string, string>)
    requires AllFit(env, entries)
    ensures TakeBody(Body(env, entries)) == Parsed((env, entries), "")
  {
    SortedKeysOf(entries);
    var keys := Sorted(entries.Keys);
    LenFits(|keys|);
    TakeListing(env, Len64(|keys|), keys, entries, PutPairs(keys, entries));
  }

  /** Nothing that starts with one tag starts with the other. */
  lemma TagApart(tag: string, other: string, rest: string)
    requires (tag, other) in {(TAG_V1, TAG_V2), (TAG_V2, TAG_V1)}
    ensures !(other <= tag + rest)
  {
    assert (tag + rest)[17] == tag[17] != other[17];
  }

  lemma DecodeNumericStep(b: string, id: nat, b1: string, env: string, m: map<string, string>, b2: string)
    requires TakeU64(b) == Parsed(id, b1) && TakeBody(b1) == Parsed((env, m), b2)
    ensures Decode(TAG_V1 + b) == Some(Numeric(id, env, m))
  {
    assert (TAG_V1 + b)[|TAG_V1|..] == b;
  }

  lemma DecodeKeyedStep(b: string, pubkey: string, b1: string, env: string, m: map<string, string>, b2: string)
    requires TakeStr(b) == Parsed(pubkey, b1) && TakeBody(b1) == Parsed((env, m), b2)
    ensures Decode(TAG_V2 + b) == Some(Keyed(pubkey, env, m))
  {
    TagApart(TAG_V2, TAG_V1, b);
    assert (TAG_V2 + b)[|TAG_V2|..] == b;
  }

  lemma DecodeV3(projectID: int64, env: string, entries: map<string, string>)
    requires AllFit(env, entries)
    ensures Decode(FrameV3(projectID, env, entries)) == Some(Numeric(AsUint64(projectID), env, entries))
  {
    var id, body := AsUint64(projectID), Body(env, entries);
    TakeU64Of(id, body);
    TakeBodyOf(env, entries);
    DecodeNumericStep(U64(id) + body, id, body, env, entries, "");
    Assoc(TAG_V1, U64(id), body);
  }

  lemma DecodeV4(pubkey: string, env: string, entries: map<string, string>)
    requires Fits(pubkey) && AllFit(env, entries)
    ensures Decode(FrameV4(pubkey, env, entries)) == Some(Keyed(pubkey, env, entries))
  {
    var body := Body(env, entries);
    TakeStrOf(pubkey, body);
    TakeBodyOf(env, entries);
    DecodeKeyedStep(PutStr(pubkey) + body, pubkey, body, env, entries, "");
    Assoc(TAG_V2, PutStr(pubkey), body);
  }

  // ---------------------------------------------------------------- injectivity

  /** Two numeric sections are signed over the same bytes exactly when they are the same section. */
  lemma FrameV3Injective(id1: int64, env1: string, e1: map<string, string>,
                         id2: int64, env2: string, e2: map<string, string>)
    requires AllFit(env1, e1) && AllFit(env2, e2)
    ensures SectionDigest(id1, env1, e1) == SectionDigest(id2, env2, e2)
       <==> id1 == id2 && env1 == env2 && e1 == e2
  {
    DecodeV3(id1, env1, e1);
    DecodeV3(id2, env2, e2);
  }

  lemma FrameV4Injective(pub1: string, env1: string, e1: map<string, string>,
                         pub2: string, env2: string, e2: map<string, string>)
    requires Fits(pub1) && Fits(pub2) && AllFit(env1, e1) && AllFit(env2, e2)
    ensures SectionDigestV4(pub1, env1, e1) == SectionDigestV4(pub2, env2, e2)
       <==> pub1 == pub2 && env1 == env2 && e1 == e2
  {
    DecodeV4(pub1, env1, e1);
    DecodeV4(pub2, env2, e2);
  }

  /** No numeric buffer is a pubkey buffer, so a v3 signature never passes for a v4 one. */
  lemma FramesDisjoint(id: int64, env1: string, e1: map<string, string>,
                       pubkey: string, env2: string, e2: map<string, string>)
    ensures SectionDigest(id, env1, e1) != SectionDigestV4(pubkey, env2, e2)
  {
    Assoc(TAG_V1, U64(AsUint64(id)), Body(env1, e1));
    TagApart(TAG_V1, TAG_V2, U64(AsUint64(id)) + Body(env1, e1));
    Assoc(TAG_V2, PutStr(pubkey), Body(env2, e2));
  }
}
