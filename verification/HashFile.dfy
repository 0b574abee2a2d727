/** From the bytes of the input file to the answers: the file of operations, read record by
    record, performed by any number of threads. */
module HashFile {
  import opened Options
  import opened Bytes
  import opened HashSpec
  import opened HashTheorems
  import opened OpFile
  import opened Words
  import G = Gate
  import S = HashSystem
  import T = HashTable

  // ----- the operations in the bytes

  /** What read_op leaves in an op at an offset; data is where the bytes of a PUT are. */
  function OpAt(data: seq<byte>, at: nat): Op {
    var p := Parse(data, at);
    if p.code == Code(Put) then Op(p.id, p.key, Put, p.datalen, at + 24) else Op(p.id, p.key, KindOf(p.code), 0, 0)
  }

  /** The operations from an offset to the first call that does not get one. */
  function Ops(data: seq<byte>, at: nat): seq<Op>
    decreases |data| - at
  {
    var p := Parse(data, at);
    if p.status == Got then [OpAt(data, at)] + Ops(data, p.next) else []
  }

  /** Where record i starts. */
  function Position(recs: seq<Record>, i: nat): nat
    requires i <= |recs|
  {
    |EncodeAll(recs[..i])|
  }

  /** op is what the record says, and a PUT's text is in the file where op says. */
  predicate Means(data: seq<byte>, op: Op, rec: Record) {
    && op.id == rec.id && op.key == rec.key && op.kind == rec.kind
    && (rec.kind == Put ==> TextAt(data, Value(op.datalen, op.data), rec.text))
  }

  predicate TextAt(data: seq<byte>, v: Value, text: seq<byte>) {
    v.data + v.datalen <= |data| && data[v.data..v.data + v.datalen] == text
  }

  lemma ReadsMeans(data: seq<byte>, at: nat, rec: Record)
    requires Reads(data, at, Parse(data, at), rec)
    ensures Means(data, OpAt(data, at), rec)
  {
  }

  /** Reading where record i starts gives its operation, and leaves the position at the next. */
  lemma OpAtRecord(recs: seq<Record>, i: nat)
    requires i < |recs| && forall rec :: rec in recs ==> Fits(rec)
    ensures var data := EncodeAll(recs); var p := Parse(data, Position(recs, i));
            p.status == Got && p.next == Position(recs, i + 1) && Means(data, OpAt(data, Position(recs, i)), recs[i])
  {
    NextRecord(recs, i);
    ReadsMeans(EncodeAll(recs), Position(recs, i), recs[i]);
  }

  /** Behind record i the rest of the records is read, one operation each. */
  lemma {:induction false} OpsFrom(recs: seq<Record>, i: nat)
    requires i <= |recs| && forall rec :: rec in recs ==> Fits(rec)
    ensures |Ops(EncodeAll(recs), Position(recs, i))| == |recs| - i
    ensures forall j :: i <= j < |recs| ==>
              Means(EncodeAll(recs), Ops(EncodeAll(recs), Position(recs, i))[j - i], recs[j])
    decreases |recs| - i
  {
    var data := EncodeAll(recs);
    if i == |recs| {
      NextRecord(recs, i);
    } else {
      OpAtRecord(recs, i);
      OpsFrom(recs, i + 1);
      var rest := Ops(data, Position(recs, i + 1));
      assert Ops(data, Position(recs, i)) == [OpAt(data, Position(recs, i))] + rest;
      forall j | i <= j < |recs| ensures Means(data, ([OpAt(data, Position(recs, i))] + rest)[j - i], recs[j]) {
        assert j > i ==> ([OpAt(data, Position(recs, i))] + rest)[j - i] == rest[j - (i + 1)];
      }
    }
  }

  /** The file gives the operations of its records, in order, and nothing else. */
  lemma OpsOfFile(recs: seq<Record>)
    requires forall rec :: rec in recs ==> Fits(rec)
    ensures |Ops(EncodeAll(recs), 0)| == |recs|
    ensures forall i :: 0 <= i < |recs| ==> Means(EncodeAll(recs), Ops(EncodeAll(recs), 0)[i], recs[i])
  {
    assert Position(recs, 0) == 0;
    OpsFrom(recs, 0);
  }

  // ----- what the records ask for

  /** The texts under the keys after the first n records, one after the other. */
  function Texts(recs: seq<Record>, n: nat): map<nat, seq<byte>>
    requires n <= |recs|
  {
    if n == 0 then map[]
    else
      var m, rec := Texts(recs, n - 1), recs[n - 1];
      match rec.kind
      case Put => m[rec.key := rec.text]
      case Get => m
      case Del => m - {rec.key}
  }

  /** The answer to a record when the texts are m: a GET's is its text, in the file. */
  ghost predicate Serves(data: seq<byte>, m: map<nat, seq<byte>>, rec: Record, r: Result) {
    match rec.kind
    case Put => r == Result(0, None)
    case Del => r == Result(if rec.key in m then 0 else -1, None)
    case Get =>
      if rec.key in m then r.status == 0 && r.value.Some? && TextAt(data, r.value.value, m[rec.key])
      else r == Result(-1, None)
  }

  /** The PUTs of keys that have no text. */
  ghost function FreshRecords(recs: seq<Record>): set<nat> {
    set i: nat | i < |recs| && recs[i].kind == Put && recs[i].key !in Texts(recs, i)
  }

  /** The map of the sequential run stands for the texts. */
  ghost predicate StandsFor(data: seq<byte>, am: map<nat, Entry>, m: map<nat, seq<byte>>) {
    am.Keys == m.Keys && forall key :: key in am ==> TextAt(data, am[key].value, m[key])
  }

  lemma {:induction false} MapOfTexts(data: seq<byte>, ops: seq<Op>, recs: seq<Record>, n: nat)
    requires n <= |ops| == |recs| && forall i :: 0 <= i < |recs| ==> Means(data, ops[i], recs[i])
    ensures StandsFor(data, SeqMap(ops, n), Texts(recs, n))
  {
    if n > 0 {
      MapOfTexts(data, ops, recs, n - 1);
      assert Means(data, ops[n - 1], recs[n - 1]);
    }
  }

  lemma SameFresh(data: seq<byte>, ops: seq<Op>, recs: seq<Record>)
    requires |ops| == |recs| && forall i :: 0 <= i < |recs| ==> Means(data, ops[i], recs[i])
    ensures FreshPuts(ops) == FreshRecords(recs)
  {
    forall i: nat | i < |recs| ensures i in FreshPuts(ops) <==> i in FreshRecords(recs) {
      MapOfTexts(data, ops, recs, i);
      assert Means(data, ops[i], recs[i]);
    }
  }

  /** What the theorems about runs ask, said of the records. */
  ghost predicate Suitable(recs: seq<Record>, size: nat) {
    && (forall rec :: rec in recs ==> Fits(rec) && rec.key != 0)
    && (forall i, j :: 0 <= i < j < |recs| ==> recs[i].id < recs[j].id)
    && |FreshRecords(recs)| < size <= T.MAX_SIZE
  }

  lemma SuitableUsable(recs: seq<Record>, size: nat, ptr: nat)
    requires Suitable(recs, size) && ptr < W32
    ensures S.Usable(Program(Ops(EncodeAll(recs), 0), size, ptr))
  {
    var ops := Ops(EncodeAll(recs), 0);
    OpsOfFile(recs);
    SameFresh(EncodeAll(recs), ops, recs);
    forall i | 0 <= i < |ops| ensures ops[i].key != 0 && ops[i].id == recs[i].id {
      assert Means(EncodeAll(recs), ops[i], recs[i]);
      assert recs[i] in recs;
    }
    ProgramUsable(ops, size, ptr);
  }

  /** The program on a file of records: when all threads have exited, each record has the
      answer that the records before it ask for; a GET's is the text of the last PUT on its
      key, byte for byte. */
  lemma FileServed(recs: seq<Record>, size: nat, ptr: nat, threads: nat, ss: seq<S.Sys>)
    requires Suitable(recs, size) && ptr < W32 && threads <= G.THREADS
    requires S.Run(Program(Ops(EncodeAll(recs), 0), size, ptr), threads, ss) && AllExited(S.Last(ss))
    ensures forall i :: 0 <= i < |recs| ==>
              i in S.Last(ss).results && Serves(EncodeAll(recs), Texts(recs, i), recs[i], S.Last(ss).results[i])
  {
    var data := EncodeAll(recs);
    var ops := Ops(data, 0);
    OpsOfFile(recs);
    SuitableUsable(recs, size, ptr);
    FinalTable(Program(ops, size, ptr), threads, ss);
    forall i | 0 <= i < |recs|
      ensures i in S.Last(ss).results && Serves(data, Texts(recs, i), recs[i], S.Last(ss).results[i])
    {
      MapOfTexts(data, ops, recs, i);
      assert Means(data, ops[i], recs[i]);
    }
  }
}
