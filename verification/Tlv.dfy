/**
 Type-length-value streams: `cursor_push_bigsize` of `bigsize.c`, `cursor_push_tlv` and
 `cursor_push_tlvs` of `lnsocket.c`.

 `Parse` takes a stream apart into records in whatever order they come. It accepts exactly the byte
 strings that the writer can write, so these can be taken apart one way only. `StrictParse` is the
 reader of BOLT #1, "Type-Length-Value Format", which also wants types to increase; the writer does
 not see to that, so what it writes is accepted exactly when its caller did.
 */
module Tlv {
  import opened BigSize
  import opened Bytes
  import opened Cursors

  datatype Record = Record(kind: nat, value: seq<byte>)

  /** Both numbers are 64 bits wide. */
  predicate Sized(r: Record) {
    r.kind < TWO_TO_64 && |r.value| < TWO_TO_64
  }

  predicate AllSized(rs: seq<Record>) {
    forall i :: 0 <= i < |rs| ==> Sized(rs[i])
  }

  function RecordBytes(r: Record): (b: seq<byte>)
    requires Sized(r)
    ensures |b| >= 2
  {
    Encoded(r.kind) + Encoded(|r.value|) + r.value
  }

  function StreamBytes(rs: seq<Record>): seq<byte>
    requires AllSized(rs)
  {
    if rs == [] then [] else RecordBytes(rs[0]) + StreamBytes(rs[1..])
  }

  /** The record at the front of `b` and how many bytes it takes. */
  function ParseOne(b: seq<byte>): (r: Option<(Record, nat)>)
    ensures r.Some? ==> 1 <= r.value.1 <= |b|
  {
    match Decoded(b)
    case None => None
    case Some((kind, n)) =>
      match Decoded(b[n..])
      case None => None
      case Some((len, m)) =>
        if |b| < n + m + len then None
        else Some((Record(kind, b[n + m..n + m + len]), n + m + len))
  }

  function Parse(b: seq<byte>): Option<seq<Record>>
    decreases |b|
  {
    if b == [] then Some([])
    else
      match ParseOne(b)
      case None => None
      case Some((r, n)) =>
        match Parse(b[n..])
        case None => None
        case Some(rs) => Some([r] + rs)
  }

  lemma ThreeParts(r: Record, rest: seq<byte>)
    requires Sized(r)
    ensures var a, l := Encoded(r.kind), Encoded(|r.value|);
            var b := RecordBytes(r) + rest;
            && b == a + (l + r.value + rest)
            && b[|a|..] == l + (r.value + rest)
            && b[|a| + |l|..|a| + |l| + |r.value|] == r.value
  {
    hide Encoded;
    var a, l := Encoded(r.kind), Encoded(|r.value|);
    assert RecordBytes(r) + rest == a + (l + (r.value + rest));
    assert l + (r.value + rest) == l + r.value + rest;
  }

  lemma WriteThenParseOne(r: Record, rest: seq<byte>)
    requires Sized(r)
    ensures ParseOne(RecordBytes(r) + rest) == Some((r, |RecordBytes(r)|))
  {
    hide Decoded, Encoded, Width;
    var a, l := Encoded(r.kind), Encoded(|r.value|);
    ThreeParts(r, rest);
    PutThenGet(r.kind, l + r.value + rest);
    PutThenGet(|r.value|, r.value + rest);
  }

  lemma ParseOneThenWrite(b: seq<byte>)
    requires ParseOne(b).Some?
    ensures var (r, n) := ParseOne(b).value;
            n <= |b| && Sized(r) && RecordBytes(r) == b[..n]
  {
    hide Decoded, Encoded;
    var (kind, n) := Decoded(b).value;
    GetThenPut(b);
    var (len, m) := Decoded(b[n..]).value;
    GetThenPut(b[n..]);
    assert b[..n + m + len] == b[..n] + b[n..][..m] + b[n + m..n + m + len];
  }

  /** Reading back what was written gives the records. */
  lemma {:induction false} WriteThenParse(rs: seq<Record>)
    requires AllSized(rs)
    ensures Parse(StreamBytes(rs)) == Some(rs)
  {
    hide RecordBytes, ParseOne;
    if rs != [] {
      WriteThenParse(rs[1..]);
      var b := StreamBytes(rs);
      WriteThenParseOne(rs[0], StreamBytes(rs[1..]));
      assert b[|RecordBytes(rs[0])|..] == StreamBytes(rs[1..]);
      assert rs == [rs[0]] + rs[1..];
    }
  }

  /** What the reader accepts is what the writer writes. */
  lemma {:induction false} ParseThenWrite(b: seq<byte>)
    requires Parse(b).Some?
    ensures AllSized(Parse(b).value) && StreamBytes(Parse(b).value) == b
    decreases |b|
  {
    hide RecordBytes, ParseOne;
    if b != [] {
      var (r, n) := ParseOne(b).value;
      ParseOneThenWrite(b);
      ParseThenWrite(b[n..]);
      var rs := Parse(b[n..]).value;
      assert ([r] + rs)[1..] == rs;
      assert b == b[..n] + b[n..];
    }
  }

  /** A byte string comes apart into these records exactly when the writer writes it for them. */
  lemma ParseIffWrite(b: seq<byte>, rs: seq<Record>)
    ensures Parse(b) == Some(rs) <==> AllSized(rs) && StreamBytes(rs) == b
  {
    hide Parse, StreamBytes, AllSized;
    if Parse(b) == Some(rs) {
      ParseThenWrite(b);
    }
    if AllSized(rs) && StreamBytes(rs) == b {
      WriteThenParse(rs);
    }
  }

  /** A byte string determines the records that were written. */
  lemma Unambiguous(rs: seq<Record>, ss: seq<Record>)
    requires AllSized(rs) && AllSized(ss) && StreamBytes(rs) == StreamBytes(ss)
    ensures rs == ss
  {
    hide Parse, StreamBytes, AllSized;
    WriteThenParse(rs);
    WriteThenParse(ss);
  }

  // ---- The order of types ----

  /** Types strictly increase, beginning above `last`. */
  predicate Increasing(last: int, rs: seq<Record>)
    decreases |rs|
  {
    rs == [] || (last < rs[0].kind && Increasing(rs[0].kind, rs[1..]))
  }

  predicate KindsIncrease(rs: seq<Record>) {
    forall i, j :: 0 <= i < j < |rs| ==> rs[i].kind < rs[j].kind
  }

  lemma {:induction false} IncreasingIs(last: int, rs: seq<Record>)
    ensures Increasing(last, rs) <==> (rs == [] || last < rs[0].kind) && KindsIncrease(rs)
    decreases |rs|
  {
    if rs != [] {
      var rest := rs[1..];
      IncreasingIs(rs[0].kind, rest);
      if Increasing(last, rs) {
        forall j | 0 < j < |rs| ensures rs[0].kind < rs[j].kind {
          assert rs[j] == rest[j - 1] && rest[0].kind <= rest[j - 1].kind;
        }
        forall i, j | 0 <= i < j < |rs| ensures rs[i].kind < rs[j].kind {
          if i > 0 {
            assert rs[i] == rest[i - 1] && rs[j] == rest[j - 1];
          }
        }
      }
      if KindsIncrease(rs) {
        forall i, j | 0 <= i < j < |rest| ensures rest[i].kind < rest[j].kind {
          assert rest[i] == rs[i + 1] && rest[j] == rs[j + 1];
        }
      }
    }
  }

  /** The reader of BOLT #1, after a record of type `last`: it gives up at a type that is not larger. */
  function StrictFrom(last: int, b: seq<byte>): Option<seq<Record>>
    decreases |b|
  {
    if b == [] then Some([])
    else
      match ParseOne(b)
      case None => None
      case Some((r, n)) =>
        if r.kind <= last then None
        else
          match StrictFrom(r.kind, b[n..])
          case None => None
          case Some(rs) => Some([r] + rs)
  }

  function StrictParse(b: seq<byte>): Option<seq<Record>> {
    StrictFrom(-1, b)
  }

  lemma {:induction false} StrictFromIs(last: int, b: seq<byte>)
    ensures StrictFrom(last, b)
            == if Parse(b).Some? && Increasing(last, Parse(b).value) then Parse(b) else None
    decreases |b|
  {
    hide ParseOne;
    if b != [] && ParseOne(b).Some? {
      var (r, n) := ParseOne(b).value;
      StrictFromIs(r.kind, b[n..]);
      if Parse(b).Some? {
        var rs := Parse(b[n..]).value;
        assert ([r] + rs)[1..] == rs;
      }
    }
  }

  /** What was written is accepted, and as it was written, exactly when the types strictly increase. */
  lemma WriteThenStrictParse(rs: seq<Record>)
    requires AllSized(rs)
    ensures StrictParse(StreamBytes(rs)) == if KindsIncrease(rs) then Some(rs) else None
  {
    hide Parse, StrictFrom, StreamBytes, AllSized, Increasing, KindsIncrease;
    IncreasingIs(-1, rs);
    WriteThenParse(rs);
    StrictFromIs(-1, StreamBytes(rs));
  }

  /** The reader accepts a byte string exactly when the writer writes it for records in order. */
  lemma StrictParseIffWrite(b: seq<byte>, rs: seq<Record>)
    ensures StrictParse(b) == Some(rs) <==> AllSized(rs) && KindsIncrease(rs) && StreamBytes(rs) == b
  {
    hide Parse, StrictFrom, StreamBytes, AllSized, Increasing, KindsIncrease;
    IncreasingIs(-1, rs);
    StrictFromIs(-1, b);
    ParseIffWrite(b, rs);
  }

  /** The order is not checked on the way out: here are two records written that no reader accepts. */
  lemma UnorderedFails()
    ensures var down, same := [Record(5, []), Record(3, [])], [Record(5, []), Record(5, [])];
            && AllSized(down) && StrictParse(StreamBytes(down)) == None && Parse(StreamBytes(down)) == Some(down)
            && AllSized(same) && StrictParse(StreamBytes(same)) == None && Parse(StreamBytes(same)) == Some(same)
  {
    hide Parse, StrictParse, StreamBytes;
    var down, same := [Record(5, []), Record(3, [])], [Record(5, []), Record(5, [])];
    WriteThenStrictParse(down);
    WriteThenStrictParse(same);
    WriteThenParse(down);
    WriteThenParse(same);
    assert down[0].kind >= down[1].kind && !KindsIncrease(down);
    assert same[0].kind >= same[1].kind && !KindsIncrease(same);
  }

  // ---- The code ----

  /** `cursor_push_bigsize` */
  method PushBigSize(cur: Cursor, v: nat) returns (ok: bool)
    requires cur.Valid() && v < TWO_TO_64
    modifies cur`p, cur.mem
    ensures cur.Valid() && (ok <==> old(cur.p) + |Encoded(v)| < cur.end)
    ensures cur.Contents() == if ok then old(cur.Contents()) + Encoded(v) else old(cur.Contents())
  {
    hide Encoded;
    var buf := new byte[9];
    var len := Put(buf, v);
    ok := cur.Push(buf[..len]);
  }

  /** The length is passed on as a signed 32-bit number. */
  predicate Writable(r: Record) {
    r.kind < TWO_TO_64 && |r.value| < 0x8000_0000
  }

  /** The three pushes of a record. */
  lemma Stages(before: seq<byte>, r: Record)
    requires Sized(r)
    ensures var a, l, all := Encoded(r.kind), Encoded(|r.value|), before + RecordBytes(r);
            && before + a <= all && before + a + l <= all && before + a + l + r.value == all
            && |RecordBytes(r)| == |a| + |l| + |r.value|
  {
    hide Encoded;
    var a, l := Encoded(r.kind), Encoded(|r.value|);
    assert before + RecordBytes(r) == before + a + l + r.value;
  }

  /** `cursor_push_tlv`: the whole record when it fits, else as much of it as was already pushed. */
  method PushRecord(cur: Cursor, r: Record) returns (ok: bool)
    requires cur.Valid() && Writable(r)
    modifies cur`p, cur.mem
    ensures cur.Valid() && (ok <==> old(cur.p) + |RecordBytes(r)| < cur.end)
    ensures old(cur.Contents()) <= cur.Contents() <= old(cur.Contents()) + RecordBytes(r)
    ensures ok ==> cur.Contents() == old(cur.Contents()) + RecordBytes(r)
  {
    hide Encoded, RecordBytes;
    Stages(cur.Contents(), r);
    ok := PushBigSize(cur, r.kind);
    if ok {
      ok := PushBigSize(cur, |r.value|);
    }
    if ok {
      ok := cur.Push(r.value);
    }
  }

  /** `cursor_push_tlvs`: the whole stream when it fits, else part of it. */
  method PushRecords(cur: Cursor, rs: seq<Record>) returns (ok: bool)
    requires cur.Valid() && AllSized(rs) && forall i :: 0 <= i < |rs| ==> Writable(rs[i])
    modifies cur`p, cur.mem
    ensures cur.Valid() && (ok <==> rs == [] || old(cur.p) + |StreamBytes(rs)| < cur.end)
    ensures old(cur.Contents()) <= cur.Contents() <= old(cur.Contents()) + StreamBytes(rs)
    ensures ok ==> cur.Contents() == old(cur.Contents()) + StreamBytes(rs)
  {
    hide RecordBytes;
    ghost var before, whole := cur.Contents(), StreamBytes(rs);
    for i := 0 to |rs|
      invariant cur.Valid() && before <= cur.Contents()
      invariant cur.Contents() + StreamBytes(rs[i..]) == before + whole
      invariant i > 0 ==> cur.p < cur.end
    {
      ghost var rest := StreamBytes(rs[i + 1..]);
      assert rs[i..][1..] == rs[i + 1..];
      ghost var soFar := cur.Contents();
      ok := PushRecord(cur, rs[i]);
      if !ok {
        assert soFar + (RecordBytes(rs[i]) + rest) == (soFar + RecordBytes(rs[i])) + rest;
        return;
      }
    }
    ok := true;
  }

  // ---- Records in bytes ----

  /** A record with a small type and a short value: a byte for each, and the value. */
  lemma ShortRecord(r: Record)
    requires r.kind < 0xfd && |r.value| < 0xfd
    ensures RecordBytes(r) == [Octet(r.kind), Octet(|r.value|)] + r.value
  {
    hide Octet, Encoded;
    EncodedBytes(r.kind);
    EncodedBytes(|r.value|);
  }

  lemma SmallNumbers()
    ensures Octet(1) == 1 && Octet(2) == 2 && Octet(8) == 8
  {
    OctetOfByte(1);
    OctetOfByte(2);
    OctetOfByte(8);
  }

  /** An amount of 1 and a channel 0x0x550, from BOLT #1, "TLV Test Vectors", one record after the other. */
  lemma PublishedRecords()
    ensures var rs := [Record(1, [1]), Record(2, [0, 0, 0, 0, 0, 0, 0x02, 0x26])];
            AllSized(rs) && StreamBytes(rs) == [1, 1, 1] + [2, 8, 0, 0, 0, 0, 0, 0, 0x02, 0x26]
  {
    hide Octet, Encoded, RecordBytes;
    var r, s := Record(1, [1]), Record(2, [0, 0, 0, 0, 0, 0, 0x02, 0x26]);
    SmallNumbers();
    ShortRecord(r);
    ShortRecord(s);
    assert [r, s][1..] == [s] && [s][1..] == [];
    assert StreamBytes([]) == [];
    assert StreamBytes([s]) == RecordBytes(s) + [];
    assert StreamBytes([r, s]) == RecordBytes(r) + StreamBytes([s]);
  }
}
