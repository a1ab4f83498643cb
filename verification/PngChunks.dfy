/**
PNG chunk framing as the drawn chart writes it (section 3.2 of RFC 2083): a four-byte length, a four-byte type, the
data, and the CRC of type and data, most significant byte first.  The reader is the independent side: it knows the
layout of the standard, not the writer.
*/
module PngChunks {
  import opened Wrappers
  import opened Crc32

  type Bytes = seq<bv8>

  datatype Chunk = Chunk(kind: Bytes, data: Bytes)

  datatype WriteError = ValueOutOfRange

  const LIMIT := 0x1_0000_0000

  function ToByte(n: nat): bv8
    requires n < 0x100
  {
    n as bv8
  }

  function FromByte(b: bv8): nat { b as int }

  /** A 32-bit value, most significant byte first. */
  function Big(n: nat): Bytes
    requires n < LIMIT
  {
    [ToByte(n / 0x100_0000), ToByte(n / 0x1_0000 % 0x100), ToByte(n / 0x100 % 0x100), ToByte(n % 0x100)]
  }

  function ReadBig(s: Bytes): nat
    requires |s| == 4
  {
    FromByte(s[0]) * 0x100_0000 + FromByte(s[1]) * 0x1_0000 + FromByte(s[2]) * 0x100 + FromByte(s[3])
  }

  /** What writing a type name of any length into the four bytes of the header leaves there. */
  function TypeField(name: Bytes): Bytes {
    if |name| >= 4 then name[..4] else name + seq(4 - |name|, _ => 0)
  }

  function ChunkBytes(name: Bytes, data: Bytes): Bytes
    requires |data| < LIMIT
  {
    Big(|data|) + (TypeField(name) + data) + Big(RfcCrc(TypeField(name) + data) as int)
  }

  // ---- the reader of section 3.2 ----

  datatype ReadResult = ReadResult(chunk: Chunk, rest: Bytes)

  function ReadChunk(s: Bytes): Option<ReadResult> {
    if |s| < 12 then None
    else
      var n := ReadBig(s[..4]);
      if |s| < 12 + n then None
      else if ReadBig(s[8 + n..12 + n]) != RfcCrc(s[4..8 + n]) as int then None
      else Some(ReadResult(Chunk(s[4..8], s[8..8 + n]), s[12 + n..]))
  }

  function ReadAll(s: Bytes): Option<seq<Chunk>>
    decreases |s|
  {
    if s == [] then Some([])
    else
      var first := ReadChunk(s);
      if first.None? then None
      else
        var others := ReadAll(first.value.rest);
        if others.None? then None else Some([first.value.chunk] + others.value)
  }

  predicate Writable(cs: seq<Chunk>) {
    forall c | c in cs :: |c.data| < LIMIT
  }

  function WriteAll(cs: seq<Chunk>): Bytes
    requires Writable(cs)
  {
    if cs == [] then [] else ChunkBytes(cs[0].kind, cs[0].data) + WriteAll(cs[1..])
  }

  function Framed(c: Chunk): Chunk { c.(kind := TypeField(c.kind)) }

  /** What a reader can see of the chunks: the four bytes that were written for each type. */
  function FramedAll(cs: seq<Chunk>): seq<Chunk> {
    if cs == [] then [] else [Framed(cs[0])] + FramedAll(cs[1..])
  }

  // ---- numbers and bytes ----

  lemma ByteValue(n: nat)
    requires n < 0x100
    ensures FromByte(ToByte(n)) == n
  {
    RawByte(n);
  }

  lemma RawByte(n: nat)
    requires n < 0x100
    ensures (n as bv8) as int == n
  {
    var b := ByteOf(n);
    BackToByte(b);
  }

  lemma BackToByte(b: bv8)
    ensures (b as int) as bv8 == b
  {}

  lemma NextByte(b: bv8)
    requires b as int < 0xff
    ensures (b + 1) as int == b as int + 1
  {}

  lemma {:induction false} ByteOf(n: nat) returns (b: bv8)
    requires n < 0x100
    ensures b as int == n
  {
    if n == 0 {
      b := 0;
    } else {
      b := ByteOf(n - 1);
      NextByte(b);
      b := b + 1;
    }
  }

  lemma ByteInRange(b: bv8)
    ensures FromByte(b) < 0x100 && ToByte(FromByte(b)) == b
  {}

  lemma BigRead(n: nat)
    requires n < LIMIT
    ensures |Big(n)| == 4 && ReadBig(Big(n)) == n
  {
    hide ToByte;
    hide FromByte;
    var a, b, c, d := n / 0x100_0000, n / 0x1_0000 % 0x100, n / 0x100 % 0x100, n % 0x100;
    ByteValue(a);
    ByteValue(b);
    ByteValue(c);
    ByteValue(d);
    Positions(n);
    assert Big(n) == [ToByte(a), ToByte(b), ToByte(c), ToByte(d)];
  }

  lemma Positions(n: nat)
    ensures n / 0x100_0000 * 0x100_0000 + n / 0x1_0000 % 0x100 * 0x1_0000 + n / 0x100 % 0x100 * 0x100 + n % 0x100 == n
  {
    var q := n / 0x100;
    var r := q / 0x100;
    DivideTwice(n, q, r);
    DivideTwice(q, r, r / 0x100);
    assert n / 0x100_0000 == r / 0x100;
  }

  lemma DivideTwice(n: nat, q: nat, r: nat)
    requires q == n / 0x100 && r == q / 0x100
    ensures n / 0x1_0000 == r
  {
    assert n == q * 0x100 + n % 0x100 && q == r * 0x100 + q % 0x100;
    assert n == r * 0x1_0000 + (q % 0x100 * 0x100 + n % 0x100);
  }

  lemma DigitsOf(a: nat, b: nat, c: nat, d: nat)
    requires a < 0x100 && b < 0x100 && c < 0x100 && d < 0x100
    ensures var n := a * 0x100_0000 + b * 0x1_0000 + c * 0x100 + d;
            n < LIMIT && n / 0x100_0000 == a && n / 0x1_0000 % 0x100 == b && n / 0x100 % 0x100 == c && n % 0x100 == d
  {
    var n := a * 0x100_0000 + b * 0x1_0000 + c * 0x100 + d;
    assert n / 0x100 == a * 0x1_0000 + b * 0x100 + c;
    assert n / 0x1_0000 == a * 0x100 + b;
  }

  lemma ReadBigWritten(s: Bytes)
    requires |s| == 4
    ensures ReadBig(s) < LIMIT && Big(ReadBig(s)) == s
  {
    hide ToByte;
    hide FromByte;
    ByteInRange(s[0]);
    ByteInRange(s[1]);
    ByteInRange(s[2]);
    ByteInRange(s[3]);
    DigitsOf(FromByte(s[0]), FromByte(s[1]), FromByte(s[2]), FromByte(s[3]));
  }

  lemma WordInRange(c: bv32)
    ensures 0 <= c as int < LIMIT
  {}

  lemma WordValueInjective(c: bv32, d: bv32)
    requires c as int == d as int
    ensures c == d
  {
    assert (c as int) as bv32 == c && (d as int) as bv32 == d;
  }

  // ---- one chunk ----

  lemma ChunkLayout(length: Bytes, body: Bytes, check: Bytes, rest: Bytes)
    requires |length| == 4 && |body| >= 4 && |check| == 4
    ensures var s := length + body + check + rest; var n := |body| - 4;
            && |s| == 12 + n + |rest|
            && s[..4] == length && s[4..8] == body[..4] && s[8..8 + n] == body[4..]
            && s[4..8 + n] == body && s[8 + n..12 + n] == check && s[12 + n..] == rest
  {}

  /** What a reader makes of a well laid out chunk: its type and data if the check value is right, nothing otherwise. */
  lemma ReadLaidOut(length: Bytes, body: Bytes, check: Bytes, rest: Bytes)
    requires |length| == 4 && |body| >= 4 && |check| == 4 && ReadBig(length) == |body| - 4
    ensures ReadChunk(length + body + check + rest)
            == if ReadBig(check) == RfcCrc(body) as int
               then Some(ReadResult(Chunk(body[..4], body[4..]), rest))
               else None
  {
    hide RfcCrc;
    hide ReadBig;
    ChunkLayout(length, body, check, rest);
  }

  lemma ReadWritten(name: Bytes, data: Bytes, rest: Bytes)
    requires |data| < LIMIT
    ensures ReadChunk(ChunkBytes(name, data) + rest) == Some(ReadResult(Chunk(TypeField(name), data), rest))
  {
    hide RfcCrc;
    hide Big;
    hide ReadBig;
    hide ReadChunk;
    var body := TypeField(name) + data;
    var crc := RfcCrc(body);
    WordInRange(crc);
    BigRead(|data|);
    BigRead(crc as int);
    assert |TypeField(name)| == 4;
    hide TypeField;
    ReadLaidOut(Big(|data|), body, Big(crc as int), rest);
    assert body[..4] == TypeField(name) && body[4..] == data;
  }

  lemma WrittenRead(s: Bytes)
    requires ReadChunk(s).Some?
    ensures var r := ReadChunk(s).value;
            |r.chunk.kind| == 4 && |r.chunk.data| < LIMIT && s == ChunkBytes(r.chunk.kind, r.chunk.data) + r.rest
  {
    hide RfcCrc;
    hide Big;
    hide ReadBig;
    var r := ReadChunk(s).value;
    var n := ReadBig(s[..4]);
    ReadBigWritten(s[..4]);
    ReadBigWritten(s[8 + n..12 + n]);
    assert s[4..8] + s[8..8 + n] == s[4..8 + n];
    assert TypeField(s[4..8]) == s[4..8];
    assert s == s[..4] + s[4..8 + n] + s[8 + n..12 + n] + s[12 + n..];
  }

  // ---- main results ----

  /** Reading what was written gives back every type and every data block, in order. */
  lemma {:induction false} RoundTrip(cs: seq<Chunk>)
    requires Writable(cs)
    ensures ReadAll(WriteAll(cs)) == Some(FramedAll(cs))
  {
    hide ChunkBytes;
    hide ReadChunk;
    if cs != [] {
      var rest := cs[1..];
      RoundTrip(rest);
      ReadWritten(cs[0].kind, cs[0].data, WriteAll(rest));
      ChunkNotEmpty(cs[0].kind, cs[0].data);
    }
  }

  lemma ChunkNotEmpty(name: Bytes, data: Bytes)
    requires |data| < LIMIT
    ensures ChunkBytes(name, data) != []
  {}

  /** And only what was written is read: an accepted file is the writer's output for the chunks it was read as. */
  lemma {:induction false} ReadOnlyWritten(s: Bytes)
    requires ReadAll(s).Some?
    ensures Writable(ReadAll(s).value) && WriteAll(ReadAll(s).value) == s
    decreases |s|
  {
    hide ChunkBytes;
    if s != [] {
      WrittenRead(s);
      hide ReadChunk;
      var first := ReadChunk(s).value;
      ReadOnlyWritten(first.rest);
      var others := ReadAll(first.rest).value;
      assert ([first.chunk] + others)[1..] == others;
    }
  }

  /** A chunk whose type or data was changed inside four neighbouring bytes is refused by every reader. */
  lemma DamageRefused(name: Bytes, data: Bytes, at: nat, damage: Bytes, rest: Bytes)
    requires |data| < LIMIT && |damage| <= 4 && at + |damage| <= 4 + |data|
    requires (TypeField(name) + data)[at..at + |damage|] != damage
    ensures var body := TypeField(name) + data;
            var damaged := body[..at] + damage + body[at + |damage|..];
            ReadChunk(Big(|data|) + damaged + Big(RfcCrc(body) as int) + rest) == None
  {
    assert |TypeField(name)| == 4;
    hide RfcCrc;
    hide Big;
    hide ReadBig;
    hide ReadChunk;
    hide TypeField;
    var body := TypeField(name) + data;
    var damaged := body[..at] + damage + body[at + |damage|..];
    DamageSeen(body, at, damage);
    WordInRange(RfcCrc(body));
    BigRead(|data|);
    BigRead(RfcCrc(body) as int);
    ReadLaidOut(Big(|data|), damaged, Big(RfcCrc(body) as int), rest);
  }

  lemma DamageSeen(body: Bytes, at: nat, damage: Bytes)
    requires |damage| <= 4 && at + |damage| <= |body| && body[at..at + |damage|] != damage
    ensures RfcCrc(body) as int != RfcCrc(body[..at] + damage + body[at + |damage|..]) as int
  {
    hide RfcCrc;
    var end := at + |damage|;
    assert body == body[..at] + body[at..end] + body[end..];
    BurstDetected(body[..at], body[at..end], damage, body[end..]);
    if RfcCrc(body) as int == RfcCrc(body[..at] + damage + body[end..]) as int {
      WordValueInjective(RfcCrc(body), RfcCrc(body[..at] + damage + body[end..]));
    }
  }

  // ---- the whole file ----

  const SIGNATURE: Bytes := [0x89, 0x50, 0x4e, 0x47, 0x0d, 0x0a, 0x1a, 0x0a]
  const IHDR: Bytes := [0x49, 0x48, 0x44, 0x52]
  const IDAT: Bytes := [0x49, 0x44, 0x41, 0x54]
  const IEND: Bytes := [0x49, 0x45, 0x4e, 0x44]

  function Header(width: nat, height: nat): Bytes
    requires width < LIMIT && height < LIMIT
  {
    Big(width) + Big(height) + [8, 2, 0, 0, 0]
  }

  /** The drawn file, for whatever bytes the compressor made of the pixels. */
  function DrawnFile(width: nat, height: nat, compressed: Bytes): Bytes
    requires width < LIMIT && height < LIMIT && |compressed| < LIMIT
  {
    SIGNATURE + (ChunkBytes(IHDR, Header(width, height)) + ChunkBytes(IDAT, compressed) + ChunkBytes(IEND, []))
  }

  lemma HeaderReads(width: nat, height: nat)
    requires width < LIMIT && height < LIMIT
    ensures var h := Header(width, height);
            && |h| == 13 && ReadBig(h[..4]) == width && ReadBig(h[4..8]) == height
            && h[8..] == [8, 2, 0, 0, 0]
  {
    hide Big;
    hide ReadBig;
    BigRead(width);
    BigRead(height);
    assert Header(width, height)[..4] == Big(width) && Header(width, height)[4..8] == Big(height);
  }

  lemma {:induction false} FourLetters(cs: seq<Chunk>)
    requires forall c | c in cs :: |c.kind| == 4
    ensures FramedAll(cs) == cs
  {
    if cs != [] {
      FourLetters(cs[1..]);
      assert cs[0] in cs && TypeField(cs[0].kind) == cs[0].kind;
      assert cs == [cs[0]] + cs[1..];
    }
  }

  /** The signature in the decimals of section 3.1, and the three types by their letters. */
  lemma Signature()
    ensures SIGNATURE == [137, 80, 78, 71, 13, 10, 26, 10]
    ensures forall k | 0 <= k < 4 ::
              && FromByte(IHDR[k]) == "IHDR"[k] as int && FromByte(IDAT[k]) == "IDAT"[k] as int
              && FromByte(IEND[k]) == "IEND"[k] as int
  {}

  /** Every drawn file ends with the twelve bytes every PNG ends with. */
  lemma LastChunk()
    ensures ChunkBytes(IEND, []) == [0, 0, 0, 0, 0x49, 0x45, 0x4e, 0x44, 0xae, 0x42, 0x60, 0x82]
  {
    EndChunk();
    hide RfcCrc;
    var none: Bytes := [];
    assert TypeField(IEND) == IEND[..4] == IEND && IEND + none == IEND;
    BigOf(0, 0, 0, 0, 0);
    BigOf(0xae, 0x42, 0x60, 0x82, 0xae42_6082);
  }

  lemma BigOf(a: bv8, b: bv8, c: bv8, d: bv8, n: nat)
    requires n < LIMIT
    requires n == FromByte(a) * 0x100_0000 + FromByte(b) * 0x1_0000 + FromByte(c) * 0x100 + FromByte(d)
    ensures Big(n) == [a, b, c, d]
  {
    ByteInRange(a);
    ByteInRange(b);
    ByteInRange(c);
    ByteInRange(d);
    hide ToByte;
    hide FromByte;
    DigitsOf(FromByte(a), FromByte(b), FromByte(c), FromByte(d));
  }

  lemma AfterSignature(s: Bytes)
    ensures (SIGNATURE + s)[..8] == SIGNATURE && (SIGNATURE + s)[8..] == s
  {}

  /** A reader finds the signature and the three chunks, in order and intact. */
  lemma DrawnFileReads(width: nat, height: nat, compressed: Bytes)
    requires width < LIMIT && height < LIMIT && |compressed| < LIMIT
    ensures DrawnFile(width, height, compressed)[..8] == SIGNATURE
    ensures ReadAll(DrawnFile(width, height, compressed)[8..])
            == Some([Chunk(IHDR, Header(width, height)), Chunk(IDAT, compressed), Chunk(IEND, [])])
  {
    HeaderReads(width, height);
    hide ChunkBytes;
    hide Header;
    hide ReadAll;
    hide WriteAll;
    hide FramedAll;
    var cs := [Chunk(IHDR, Header(width, height)), Chunk(IDAT, compressed), Chunk(IEND, [])];
    ThreeWritten(cs);
    RoundTrip(cs);
    FourLetters(cs);
    AfterSignature(WriteAll(cs));
  }

  lemma ThreeWritten(cs: seq<Chunk>)
    requires |cs| == 3 && Writable(cs)
    ensures WriteAll(cs)
            == ChunkBytes(cs[0].kind, cs[0].data) + ChunkBytes(cs[1].kind, cs[1].data)
              + ChunkBytes(cs[2].kind, cs[2].data)
  {
    hide ChunkBytes;
    assert cs[1..][1..] == cs[2..] && cs[2..][1..] == [];
    assert WriteAll(cs[2..]) == ChunkBytes(cs[2].kind, cs[2].data) + [];
  }

  // ---- the program ----

  /** `writeUInt32BE`: the four bytes at `at`, or a refusal of a value that does not fit. */
  method WriteBig(buf: array<bv8>, n: nat, at: nat) returns (ok: bool)
    requires at + 4 <= buf.Length
    modifies buf
    ensures ok == (n < LIMIT)
    ensures buf[..] == if n < LIMIT then old(buf[..at]) + Big(n) + old(buf[at + 4..]) else old(buf[..])
  {
    hide ToByte;
    ok := n < LIMIT;
    if ok {
      buf[at] := ToByte(n / 0x100_0000);
      buf[at + 1] := ToByte(n / 0x1_0000 % 0x100);
      buf[at + 2] := ToByte(n / 0x100 % 0x100);
      buf[at + 3] := ToByte(n % 0x100);
    }
  }

  /** `head.write(type, 4)`: as many bytes as fit; the others keep the zero of the allocation. */
  method WriteName(head: array<bv8>, name: Bytes)
    requires head.Length == 8 && head[4..] == [0, 0, 0, 0]
    modifies head
    ensures head[..] == old(head[..4]) + TypeField(name)
  {
    ghost var length := head[..4];
    ghost var n := if |name| < 4 then |name| else 4;
    var i := 0;
    while i < |name| && i < 4
      invariant 0 <= i <= n
      invariant head[..] == length + name[..i] + seq(4 - i, _ => 0)
    {
      head[4 + i] := name[i];
      i := i + 1;
    }
    assert name[..n] + seq(4 - n, _ => 0) == TypeField(name);
  }

  method WriteChunk(table: array<bv32>, name: Bytes, data: Bytes) returns (out: Result<Bytes, WriteError>)
    requires IsTable(table[..])
    ensures out == if |data| < LIMIT then Success(ChunkBytes(name, data)) else Failure(ValueOutOfRange)
  {
    hide Big;
    hide RfcCrc;
    hide IsTable;
    hide ReadBig;
    hide TypeField;
    var head := new bv8[8](_ => 0);
    var fits := WriteBig(head, |data|, 0);
    if !fits {
      return Failure(ValueOutOfRange);
    }
    BigRead(|data|);
    ghost var length := Big(|data|);
    assert head[..] == length + [0, 0, 0, 0];
    assert head[4..] == head[..][4..];
    assert head[..4] == head[..][..4] == length;
    WriteName(head, name);
    assert head[4..] == head[..][4..] == TypeField(name);
    var sum := Compute(table, head[4..] + data);
    WordInRange(sum);
    var crc := new bv8[4](_ => 0);
    fits := WriteBig(crc, sum as int, 0);
    BigRead(sum as int);
    ghost var check := Big(sum as int);
    assert crc[..] == check;
    ThreeParts(length, TypeField(name), data, check);
    out := Success(head[..] + data + crc[..]);
  }

  lemma ThreeParts(length: Bytes, field: Bytes, data: Bytes, check: Bytes)
    ensures length + field + data + check == length + (field + data) + check
  {}
}
