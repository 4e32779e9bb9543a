/** The byte strings hashed for register and ping signatures.  The hash itself is opaque; what matters
    is that the bytes determine the signed fields. */
module TunnelDigest {
  import opened Bytes
  import opened Text

  type Data = seq<Byte>

  // "id", "cert", "ver", "bin", "own", "hw", "ts", "role" in ASCII
  const ID: Data := [105, 100]
  const CERT: Data := [99, 101, 114, 116]
  const VER: Data := [118, 101, 114]
  const BIN: Data := [98, 105, 110]
  const OWN: Data := [111, 119, 110]
  const HW: Data := [104, 119]
  const TS: Data := [116, 115]
  const ROLE: Data := [114, 111, 108, 101]

  /** `appendField`: tag, 32-bit length, value. */
  function Field(tag: Data, value: Data): Data { tag + Put32(|value|) + value }

  /** A 64-bit timestamp as its two's complement. */
  function Stamp(t: int): Data { TS + Put64(t % U64) }

  datatype Register = Register(
    nodeId: Data, certHash: Data, version: Data, binHash: Data, owner: Data, hardware: Data, timestamp: int)

  datatype Ping = Ping(role: Data, timestamp: int)

  function RegisterBytes(r: Register): Data {
    Field(ID, r.nodeId) + (Field(CERT, r.certHash) + (Field(VER, r.version) + (Field(BIN, r.binHash) +
    (Field(OWN, r.owner) + (Field(HW, r.hardware) + Stamp(r.timestamp))))))
  }

  function PingBytes(p: Ping): Data { Field(ROLE, p.role) + Stamp(p.timestamp) }

  /** Go's `[]byte(s)` lengths fit 32 bits, timestamps 64. */
  predicate Fits(r: Register) {
    |r.nodeId| < U32 && |r.certHash| < U32 && |r.version| < U32 && |r.binHash| < U32 &&
    |r.owner| < U32 && |r.hardware| < U32 && InInt64(r.timestamp)
  }

  /** The hash input as the source builds it, write by write. */
  class Hash {
    var written: Data

    constructor ()
      ensures written == []
    {
      written := [];
    }

    method AppendField(tag: Data, value: Data)
      modifies this
      ensures written == old(written) + Field(tag, value)
    {
      written := written + tag;
      written := written + Put32(|value|);
      written := written + value;
    }

    method AppendStamp(t: int)
      modifies this
      ensures written == old(written) + Stamp(t)
    {
      written := written + TS;
      written := written + Put64(t % U64);
    }
  }

  method RegisterDigestInput(r: Register) returns (bytes: Data)
    ensures bytes == RegisterBytes(r)
  {
    var h := new Hash();
    h.AppendField(ID, r.nodeId);
    h.AppendField(CERT, r.certHash);
    h.AppendField(VER, r.version);
    h.AppendField(BIN, r.binHash);
    h.AppendField(OWN, r.owner);
    h.AppendField(HW, r.hardware);
    h.AppendStamp(r.timestamp);
    Concat7(Field(ID, r.nodeId), Field(CERT, r.certHash), Field(VER, r.version), Field(BIN, r.binHash),
            Field(OWN, r.owner), Field(HW, r.hardware), Stamp(r.timestamp));
    return h.written;
  }

  method PingDigestInput(p: Ping) returns (bytes: Data)
    ensures bytes == PingBytes(p)
  {
    var h := new Hash();
    h.AppendField(ROLE, p.role);
    h.AppendStamp(p.timestamp);
    assert [] + Field(ROLE, p.role) == Field(ROLE, p.role);
    return h.written;
  }

  lemma Concat7(a: Data, b: Data, c: Data, d: Data, e: Data, f: Data, g: Data)
    ensures [] + a + b + c + d + e + f + g == a + (b + (c + (d + (e + (f + g)))))
  {
  }

  // ----- theorems -----

  /** A field and what follows it can be told apart: lengths make the encoding prefix-free. */
  lemma FieldSplits(tag: Data, v: Data, w: Data, r: Data, s: Data)
    requires |v| < U32 && |w| < U32 && Field(tag, v) + r == Field(tag, w) + s
    ensures v == w && r == s
  {
    var n := |tag|;
    var x := Field(tag, v) + r;
    assert x[n..n + 4] == Put32(|v|) && x[n..n + 4] == Put32(|w|);
    Put32Injective(|v|, |w|);
    assert x[n + 4..][..|v|] == v && x[n + 4..][..|v|] == w;
    assert x[n + 4..][|v|..] == r && x[n + 4..][|v|..] == s;
  }

  lemma TwosComplement(t: int, u: int)
    requires InInt64(t) && InInt64(u) && t % U64 == u % U64
    ensures t == u
  {
    assert t % U64 == if t < 0 then t + U64 else t;
    assert u % U64 == if u < 0 then u + U64 else u;
  }

  lemma StampInjective(t: int, u: int)
    requires InInt64(t) && InInt64(u) && Stamp(t) == Stamp(u)
    ensures t == u
  {
    hide Put64, InInt64;
    assert Stamp(t)[2..] == Put64(t % U64) && Stamp(u)[2..] == Put64(u % U64);
    Put64Injective(t % U64, u % U64);
    TwosComplement(t, u);
  }

  /** The hashed bytes of a register determine all seven signed inputs. */
  lemma RegisterBytesInjective(a: Register, b: Register)
    requires Fits(a) && Fits(b) && RegisterBytes(a) == RegisterBytes(b)
    ensures a == b
  {
    hide Field, Stamp;
    var a6, b6 := Stamp(a.timestamp), Stamp(b.timestamp);
    var a5, b5 := Field(HW, a.hardware) + a6, Field(HW, b.hardware) + b6;
    var a4, b4 := Field(OWN, a.owner) + a5, Field(OWN, b.owner) + b5;
    var a3, b3 := Field(BIN, a.binHash) + a4, Field(BIN, b.binHash) + b4;
    var a2, b2 := Field(VER, a.version) + a3, Field(VER, b.version) + b3;
    var a1, b1 := Field(CERT, a.certHash) + a2, Field(CERT, b.certHash) + b2;
    FieldSplits(ID, a.nodeId, b.nodeId, a1, b1);
    FieldSplits(CERT, a.certHash, b.certHash, a2, b2);
    FieldSplits(VER, a.version, b.version, a3, b3);
    FieldSplits(BIN, a.binHash, b.binHash, a4, b4);
    FieldSplits(OWN, a.owner, b.owner, a5, b5);
    FieldSplits(HW, a.hardware, b.hardware, a6, b6);
    StampInjective(a.timestamp, b.timestamp);
  }

  /** The hashed bytes of a ping determine role and timestamp. */
  lemma PingBytesInjective(a: Ping, b: Ping)
    requires |a.role| < U32 && |b.role| < U32 && InInt64(a.timestamp) && InInt64(b.timestamp)
    requires PingBytes(a) == PingBytes(b)
    ensures a == b
  {
    hide Field, Stamp;
    FieldSplits(ROLE, a.role, b.role, Stamp(a.timestamp), Stamp(b.timestamp));
    StampInjective(a.timestamp, b.timestamp);
  }

  /** No ping signature can pass for a register signature. */
  lemma RegisterIsNoPing(r: Register, p: Ping)
    ensures RegisterBytes(r) != PingBytes(p)
  {
    assert RegisterBytes(r)[0] == Field(ID, r.nodeId)[0] == 105;
    assert PingBytes(p)[0] == Field(ROLE, p.role)[0] == 114;
  }

  // ----- the layout, position by position -----

  /** `value` under `tag` stands at position `at`. */
  predicate StandsAt(bytes: Data, at: nat, tag: Data, value: Data) {
    at + |tag| + 4 + |value| <= |bytes| && bytes[at..at + |tag|] == tag &&
    bytes[at + |tag|..at + |tag| + 4] == Put32(|value|) &&
    bytes[at + |tag| + 4..at + |tag| + 4 + |value|] == value
  }

  lemma FieldStands(before: Data, tag: Data, value: Data, after: Data)
    ensures StandsAt(before + (Field(tag, value) + after), |before|, tag, value)
  {
    var s := before + (Field(tag, value) + after);
    var n := |before|;
    assert s[n..] == Field(tag, value) + after;
    assert s[n..][..|tag|] == tag && s[n..][|tag|..|tag| + 4] == Put32(|value|);
    assert s[n..][|tag| + 4..|tag| + 4 + |value|] == value;
  }

  /** A register is hashed as id, cert, ver, bin, own and hw, each with its length and value, one right
      behind the other, and the timestamp behind "ts" at the end. */
  lemma RegisterLayout(r: Register)
    ensures var bytes := RegisterBytes(r);
      var cert := 6 + |r.nodeId|; var ver := cert + 8 + |r.certHash|; var bin := ver + 7 + |r.version|;
      var own := bin + 7 + |r.binHash|; var hw := own + 7 + |r.owner|; var ts := hw + 6 + |r.hardware|;
      StandsAt(bytes, 0, [105, 100], r.nodeId) && StandsAt(bytes, cert, [99, 101, 114, 116], r.certHash) &&
      StandsAt(bytes, ver, [118, 101, 114], r.version) && StandsAt(bytes, bin, [98, 105, 110], r.binHash) &&
      StandsAt(bytes, own, [111, 119, 110], r.owner) && StandsAt(bytes, hw, [104, 119], r.hardware) &&
      |bytes| == ts + 10 && bytes[ts..] == [116, 115] + Put64(r.timestamp % U64)
  {
    var a, b, c := Field(ID, r.nodeId), Field(CERT, r.certHash), Field(VER, r.version);
    var d, e, f, g := Field(BIN, r.binHash), Field(OWN, r.owner), Field(HW, r.hardware), Stamp(r.timestamp);
    FieldStands([], ID, r.nodeId, b + (c + (d + (e + (f + g)))));
    FieldStands(a, CERT, r.certHash, c + (d + (e + (f + g))));
    FieldStands(a + b, VER, r.version, d + (e + (f + g)));
    FieldStands(a + b + c, BIN, r.binHash, e + (f + g));
    FieldStands(a + b + c + d, OWN, r.owner, f + g);
    FieldStands(a + b + c + d + e, HW, r.hardware, g);
    Groups(a, b, c, d, e, f, g);
    hide StandsAt, Put64, Put32, Field, Stamp;
    Lengths(r);
  }

  lemma Lengths(r: Register)
    ensures |Field(ID, r.nodeId)| == 6 + |r.nodeId| && |Field(CERT, r.certHash)| == 8 + |r.certHash|
    ensures |Field(VER, r.version)| == 7 + |r.version| && |Field(BIN, r.binHash)| == 7 + |r.binHash|
    ensures |Field(OWN, r.owner)| == 7 + |r.owner| && |Field(HW, r.hardware)| == 6 + |r.hardware|
    ensures Stamp(r.timestamp) == [116, 115] + Put64(r.timestamp % U64) && |Stamp(r.timestamp)| == 10
  {
  }

  lemma Groups(a: Data, b: Data, c: Data, d: Data, e: Data, f: Data, g: Data)
    ensures var all := a + (b + (c + (d + (e + (f + g)))));
      [] + all == all && a + b + (c + (d + (e + (f + g)))) == all && a + b + c + (d + (e + (f + g))) == all &&
      a + b + c + d + (e + (f + g)) == all && a + b + c + d + e + (f + g) == all &&
      all[|a| + |b| + |c| + |d| + |e| + |f|..] == g
  {
  }

  /** A ping is hashed as its role and the timestamp behind "ts". */
  lemma PingLayout(p: Ping)
    ensures var bytes, ts := PingBytes(p), 8 + |p.role|;
      StandsAt(bytes, 0, [114, 111, 108, 101], p.role) &&
      |bytes| == ts + 10 && bytes[ts..] == [116, 115] + Put64(p.timestamp % U64)
  {
    FieldStands([], ROLE, p.role, Stamp(p.timestamp));
    assert [] + PingBytes(p) == PingBytes(p);
    hide StandsAt, Put64;
  }

  /** A timestamp is its 64 bits, most significant byte first; a negative one as its two's complement. */
  lemma StampBits(t: int)
    requires InInt64(t)
    ensures var n := if t < 0 then t + 0x1_0000_0000_0000_0000 else t;
      Stamp(t) == [116, 115] + (Put32(n / 0x1_0000_0000) + Put32(n % 0x1_0000_0000))
  {
    assert t % U64 == if t < 0 then t + U64 else t;
  }
}
