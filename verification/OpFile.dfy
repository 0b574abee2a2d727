/** The file of hash operations: what inputgen.c writes and what read_op of
    Assignment4/parallel_hash.c reads. */
module OpFile {
  import opened Bytes
  import opened HashSpec
  import opened Words

  /** An operation as the file has it; only a PUT carries text. */
  datatype Record = Record(id: nat, key: nat, kind: Kind, text: seq<byte>)

  predicate Fits(rec: Record) {
    rec.id < W64 && rec.key < W64 && |rec.text| < W32 && (rec.kind != Put ==> rec.text == [])
  }

  /** PUT, GET and DEL of the enumeration. */
  function Code(kind: Kind): nat {
    match kind
    case Put => 0
    case Get => 1
    case Del => 2
  }

  /** u64 id, u64 key, u32 op_type, and for a PUT u32 datalen and the data. */
  function Encode(rec: Record): seq<byte> {
    Store(rec.id, 8) + Store(rec.key, 8) + Store(Code(rec.kind), 4)
    + if rec.kind == Put then Store(|rec.text|, 4) + rec.text else []
  }

  function EncodeAll(recs: seq<Record>): seq<byte> {
    if recs == [] then [] else EncodeAll(recs[..|recs| - 1]) + Encode(recs[|recs| - 1])
  }

  /** The bytes of a GET with a small id and a small key: the type is 1; that of a DEL is 2. */
  lemma EncodedSmall(id: nat, key: nat)
    requires id < 256 && key < 256
    ensures Encode(Record(id, key, Get, []))
         == ([id] + seq(7, _ => 0)) + ([key] + seq(7, _ => 0)) + ([1] + seq(3, _ => 0))
    ensures Encode(Record(id, key, Del, []))
         == ([id] + seq(7, _ => 0)) + ([key] + seq(7, _ => 0)) + ([2] + seq(3, _ => 0))
  {
    SmallStore(id, 8);
    SmallStore(key, 8);
    SmallStore(1, 4);
    SmallStore(2, 4);
  }

  /** And of a PUT of one character: type, length and text. */
  lemma EncodedPut(id: nat, key: nat, ch: byte)
    requires id < 256 && key < 256
    ensures Encode(Record(id, key, Put, [ch]))
         == ([id] + seq(7, _ => 0)) + ([key] + seq(7, _ => 0)) + ([0] + seq(3, _ => 0))
            + (([1] + seq(3, _ => 0)) + [ch])
  {
    SmallStore(id, 8);
    SmallStore(key, 8);
    SmallStore(0, 4);
    SmallStore(1, 4);
  }

  // ----- writing

  /** The character of a number below 62. */
  function Letter(ch: nat): byte
    requires ch < 62
  {
    if ch < 10 then 48 + ch else if ch < 36 then 65 + ch - 10 else 97 + ch - 36
  }

  /** The text made of the results of rand(). */
  function RandText(rands: seq<nat>): (text: seq<byte>)
    requires |rands| > 32
    ensures 8 <= |text| <= 32
    ensures forall c :: c in text ==> 48 <= c <= 57 || 65 <= c <= 90 || 97 <= c <= 122
  {
    seq(8 + rands[0] % 25, i requires 0 <= i < 32 => Letter(rands[1 + i] % 62))
  }

  /** A store of the n low bytes of v at an offset. */
  method StoreAt(buf: array<byte>, at: nat, v: nat, n: nat)
    requires at + n <= buf.Length
    modifies buf
    ensures buf[..] == old(buf[..at]) + Store(v, n) + old(buf[at + n..])
  {
    var bytes := Store(v, n);
    forall i | 0 <= i < n {
      buf[at + i] := bytes[i];
    }
  }

  lemma NextLetter(rands: seq<nat>, n: nat)
    requires |rands| > 32 && n < |RandText(rands)|
    ensures RandText(rands)[..n + 1] == RandText(rands)[..n] + [Letter(rands[1 + n] % 62)]
  {
  }

  /** generate_rand_text */
  method GenerateRandText(buf: array<byte>, at: nat, rands: seq<nat>) returns (n: nat)
    requires at + 36 <= buf.Length && |rands| > 32
    modifies buf
    ensures n == |RandText(rands)| + 4
    ensures buf[..at + n] == old(buf[..at]) + Store(|RandText(rands)|, 4) + RandText(rands)
  {
    var len := 8 + rands[0] % 25;
    StoreAt(buf, at, len, 4);
    ghost var before := buf[..at + 4];
    for ctr := 0 to len
      invariant buf[..at + 4 + ctr] == before + RandText(rands)[..ctr]
    {
      ghost var done := buf[..at + 4 + ctr];
      var ch := rands[1 + ctr] % 62;
      if ch < 10 {
        buf[at + 4 + ctr] := 48 + ch;
      } else if ch < 36 {
        buf[at + 4 + ctr] := 65 + ch - 10;
      } else {
        buf[at + 4 + ctr] := 97 + ch - 36;
      }
      assert buf[..at + 4 + ctr + 1] == done + [Letter(ch)];
      NextLetter(rands, ctr);
    }
    n := len + 4;
  }

  /** The same, behind what is in the buffer up to there. */
  method StoreNext(buf: array<byte>, at: nat, v: nat, n: nat)
    requires at + n <= buf.Length
    modifies buf
    ensures buf[..at + n] == old(buf[..at]) + Store(v, n)
  {
    StoreAt(buf, at, v, n);
    assert buf[..at + n] == buf[..][..at + n];
  }

  /** The id, the key and the type of an operation, at the front of the buffer. */
  method StoreHeader(buf: array<byte>, id: nat, key: nat, kind: Kind) returns (ptr: nat)
    requires buf.Length >= 20
    modifies buf
    ensures ptr == 20 && buf[..ptr] == Store(id, 8) + Store(key, 8) + Store(Code(kind), 4)
  {
    ptr := 0;
    StoreNext(buf, ptr, id, 8);
    assert buf[..8] == Store(id, 8);
    ptr := ptr + 8;
    StoreNext(buf, ptr, key, 8);
    assert buf[..16] == Store(id, 8) + Store(key, 8);
    ptr := ptr + 8;
    StoreNext(buf, ptr, Code(kind), 4);
    ptr := ptr + 4;
  }

  /** The binary file that inputgen writes. */
  class Output {
    var bytes: seq<byte>

    constructor ()
      ensures bytes == []
    {
      bytes := [];
    }

    /** create_put */
    method CreatePut(id: nat, key: nat, rands: seq<nat>)
      requires id < W64 && key < W64 && |rands| > 32
      modifies this
      ensures bytes == old(bytes) + Encode(Record(id, key, Put, RandText(rands)))
    {
      var buf := new byte[4096];
      var ptr := StoreHeader(buf, id, key, Put);
      var len := GenerateRandText(buf, ptr, rands);
      bytes := bytes + buf[..ptr + len];
    }

    /** create_get_del */
    method CreateGetDel(id: nat, key: nat, kind: Kind)
      requires id < W64 && key < W64 && kind != Put
      modifies this
      ensures bytes == old(bytes) + Encode(Record(id, key, kind, []))
    {
      var buf := new byte[4096];
      var ptr := StoreHeader(buf, id, key, kind);
      bytes := bytes + buf[..ptr];
    }
  }

  // ----- reading

  /** n bytes from an offset on; behind the end of the file the mapping has zeros. */
  function Window(data: seq<byte>, at: nat, n: nat): (w: seq<byte>)
    ensures |w| == n
  {
    seq(n, i requires 0 <= i => if at + i < |data| then data[at + i] else 0)
  }

  datatype Status = Got | End | Abort

  /** What read_op makes of the bytes at an offset, up to the gate: the status, the fields
      it copies, and where it leaves curr. */
  datatype Parsed = Parsed(status: Status, id: nat, key: nat, code: nat, datalen: nat, next: nat)

  function Parse(data: seq<byte>, curr: nat): Parsed {
    var code := Load(Window(data, curr + 16, 4));
    var datalen := Load(Window(data, curr + 20, 4));
    var next := if code == 1 || code == 2 then curr + 20 else if code == 0 then curr + 24 + datalen else curr;
    Parsed(if code > 2 then Abort else if next > |data| then End else Got,
           Load(Window(data, curr, 8)), Load(Window(data, curr + 8, 8)), code, datalen, next)
  }

  /** op_t */
  class OpT {
    var id: nat
    var key: nat
    var opType: nat
    var datalen: nat
    var data: nat

    constructor () {
      id, key, opType, datalen, data := 0, 0, 0, 0, 0;
    }
  }

  /** struct input_manager: the mapped file and the read position in it. */
  class InputManager {
    const data: seq<byte>
    var curr: nat

    constructor (data: seq<byte>)
      ensures this.data == data && curr == 0
    {
      this.data := data;
      curr := 0;
    }

    /** read_op up to the gate. */
    method ReadOp(op: OpT) returns (r: Status)
      modifies this, op
      ensures var p := Parse(data, old(curr));
              && r == p.status && curr == p.next
              && op.id == p.id && op.key == p.key && op.opType == p.code && op.datalen == p.datalen
              && op.data == if p.code == 0 then old(curr) + 24 else old(op.data)
    {
      op.id := Load(Window(data, curr, 8));
      op.key := Load(Window(data, curr + 8, 8));
      op.opType := Load(Window(data, curr + 16, 4));
      op.datalen := Load(Window(data, curr + 20, 4));
      if op.opType == Code(Get) || op.opType == Code(Del) {
        curr := curr + 20;
      } else if op.opType == Code(Put) {
        curr := curr + 24;
        op.data := curr;
        curr := curr + op.datalen;
      } else {
        return Abort;
      }
      if curr > |data| {
        return End;
      }
      return Got;
    }

    /** ReadOp at the i-th record of a file, or behind the last. */
    method ReadNth(op: OpT, ghost recs: seq<Record>, ghost i: nat) returns (r: Status)
      requires data == EncodeAll(recs) && i <= |recs| && curr == |EncodeAll(recs[..i])|
      requires forall rec :: rec in recs ==> Fits(rec)
      modifies this, op
      ensures i < |recs| ==> r == Got && Holds(data, op, recs[i]) && curr == |EncodeAll(recs[..i + 1])|
      ensures i == |recs| ==> r == End && curr >= |data|
    {
      NextRecord(recs, i);
      r := ReadOp(op);
    }

    /** The loop of one thread's process, without the operations: every record of the file,
        in order, and then the end. */
    method ReadAll(ghost recs: seq<Record>) returns (got: seq<Record>)
      requires data == EncodeAll(recs) && curr == 0 && forall rec :: rec in recs ==> Fits(rec)
      modifies this
      ensures got == recs && curr >= |data|
    {
      got := [];
      var op := new OpT();
      var r := ReadNth(op, recs, 0);
      while r == Got
        invariant |got| <= |recs| && got == recs[..|got|]
        invariant r == if |got| < |recs| then Got else End
        invariant |got| < |recs| ==> Holds(data, op, recs[|got|]) && curr == |EncodeAll(recs[..|got| + 1])|
        invariant |got| == |recs| ==> curr >= |data|
        decreases |recs| - |got|
      {
        var rec := ToRecord(data, op, recs[|got|]);
        got := got + [rec];
        r := ReadNth(op, recs, |got|);
      }
    }
  }

  method ToRecord(data: seq<byte>, op: OpT, ghost rec: Record) returns (r: Record)
    requires Holds(data, op, rec)
    ensures r == rec
  {
    r := Record(op.id, op.key, KindOf(op.opType),
                if op.opType == Code(Put) then data[op.data..op.data + op.datalen] else []);
  }

  function KindOf(code: nat): Kind {
    if code == 0 then Put else if code == 1 then Get else Del
  }

  /** op has the fields of the record; the text is where op says. */
  ghost predicate Holds(data: seq<byte>, op: OpT, rec: Record)
    reads op
  {
    && op.id == rec.id && op.key == rec.key && op.opType == Code(rec.kind)
    && (if rec.kind == Put then
          op.data + op.datalen <= |data| && data[op.data..op.data + op.datalen] == rec.text
        else rec.text == [])
  }

  // ----- round trip

  lemma WindowAt(data: seq<byte>, pre: seq<byte>, mid: seq<byte>, post: seq<byte>)
    requires data == pre + mid + post
    ensures Window(data, |pre|, |mid|) == mid
  {
  }

  lemma FieldsAt(data: seq<byte>, pre: seq<byte>, id: seq<byte>, key: seq<byte>, code: seq<byte>, tail: seq<byte>)
    requires data == pre + id + key + code + tail && |id| == |key| == 8 && |code| == 4
    ensures Window(data, |pre|, 8) == id && Window(data, |pre| + 8, 8) == key && Window(data, |pre| + 16, 4) == code
  {
    assert data == pre + id + (key + code + tail);
    WindowAt(data, pre, id, key + code + tail);
    assert data == (pre + id) + key + (code + tail);
    WindowAt(data, pre + id, key, code + tail);
    WindowAt(data, pre + id + key, code, tail);
  }

  lemma HeaderAt(data: seq<byte>, pre: seq<byte>, rec: Record, tail: seq<byte>)
    requires Fits(rec) && data == pre + Store(rec.id, 8) + Store(rec.key, 8) + Store(Code(rec.kind), 4) + tail
    ensures var p := Parse(data, |pre|); p.id == rec.id && p.key == rec.key && p.code == Code(rec.kind)
  {
    FieldsAt(data, pre, Store(rec.id, 8), Store(rec.key, 8), Store(Code(rec.kind), 4), tail);
    Widths();
    LoadStore(rec.id, 8);
    LoadStore(rec.key, 8);
    LoadStore(Code(rec.kind), 4);
  }

  lemma TailAt(data: seq<byte>, pre: seq<byte>, head: seq<byte>, len: seq<byte>, text: seq<byte>, post: seq<byte>)
    requires data == pre + (head + (len + text)) + post && |head| == 20 && |len| == 4
    ensures Window(data, |pre| + 20, 4) == len && data[|pre| + 24..|pre| + 24 + |text|] == text
  {
    assert data == (pre + head) + len + (text + post);
    WindowAt(data, pre + head, len, text + post);
  }

  /** p is what read_op has to make of the record at an offset. */
  ghost predicate Reads(data: seq<byte>, at: nat, p: Parsed, rec: Record) {
    && p.status == Got && p.id == rec.id && p.key == rec.key && p.code == Code(rec.kind) && p.next <= |data|
    && p.next == at + |Encode(rec)|
    && (rec.kind == Put ==> at + 24 + p.datalen == p.next && data[at + 24..p.next] == rec.text)
    && (rec.kind != Put ==> rec.text == [])
  }

  /** A record between other bytes is read back. */
  lemma ParseEncoded(pre: seq<byte>, rec: Record, post: seq<byte>)
    requires Fits(rec)
    ensures Reads(pre + Encode(rec) + post, |pre|, Parse(pre + Encode(rec) + post, |pre|), rec)
  {
    var data := pre + Encode(rec) + post;
    var id, key, code := Store(rec.id, 8), Store(rec.key, 8), Store(Code(rec.kind), 4);
    var tail := if rec.kind == Put then Store(|rec.text|, 4) + rec.text else [];
    Regroup(pre, id, key, code, tail, post);
    HeaderAt(data, pre, rec, tail + post);
    if rec.kind == Put {
      TailAt(data, pre, id + key + code, Store(|rec.text|, 4), rec.text, post);
      Widths();
      LoadStore(|rec.text|, 4);
    }
  }

  lemma Regroup(pre: seq<byte>, id: seq<byte>, key: seq<byte>, code: seq<byte>, tail: seq<byte>, post: seq<byte>)
    ensures pre + (id + key + code + tail) + post == pre + id + key + code + (tail + post)
  {
  }

  lemma {:induction false} Split(recs: seq<Record>, i: nat) returns (post: seq<byte>)
    requires i < |recs|
    ensures EncodeAll(recs) == EncodeAll(recs[..i]) + Encode(recs[i]) + post
  {
    var front, last := recs[..|recs| - 1], recs[|recs| - 1];
    if i == |recs| - 1 {
      post := [];
    } else {
      assert front[..i] == recs[..i];
      var rest := Split(front, i);
      post := rest + Encode(last);
    }
  }

  /** The records of a whole file, one after the other, and the end behind the last. */
  lemma NextRecord(recs: seq<Record>, i: nat)
    requires i <= |recs| && forall rec :: rec in recs ==> Fits(rec)
    ensures var data := EncodeAll(recs); var at := |EncodeAll(recs[..i])|;
            if i < |recs| then Reads(data, at, Parse(data, at), recs[i])
                && Parse(data, at).next == |EncodeAll(recs[..i + 1])|
            else Parse(data, at).status == End && Parse(data, at).next >= |data|
  {
    if i < |recs| {
      var post := Split(recs, i);
      ParseEncoded(EncodeAll(recs[..i]), recs[i], post);
      assert recs[..i + 1][..i] == recs[..i];
    } else {
      assert recs[..i] == recs;
      EndForever(EncodeAll(recs), |EncodeAll(recs)|);
    }
  }

  /** At the end of the file, and anywhere behind it, there is nothing to read: each
      further call returns -1 too. */
  lemma EndForever(data: seq<byte>, curr: nat)
    requires curr >= |data|
    ensures Parse(data, curr).status == End && Parse(data, curr).next >= |data|
  {
    LoadZeros(Window(data, curr + 16, 4));
  }
}
