/** What the parallel hash table is for: the operations of the input stream, and their
    results when a plain map performs them one after the other. */
module HashSpec {
  import opened Options

  datatype Kind = Put | Get | Del

  /** op_t: data is the address of the bytes in the input. */
  datatype Op = Op(id: nat, key: nat, kind: Kind, datalen: nat, data: nat)

  datatype Value = Value(datalen: nat, data: nat)

  /** What the last PUT on a key has left: its id, and the value. */
  datatype Entry = Entry(id: nat, value: Value)

  /** The status the operation returns, and what a successful GET leaves in its op. */
  datatype Result = Result(status: int, value: Option<Value>)

  function Lookup(m: map<nat, Entry>, key: nat): Option<Entry> {
    if key in m then Some(m[key]) else None
  }

  function Apply(m: map<nat, Entry>, op: Op): map<nat, Entry> {
    match op.kind
    case Put => m[op.key := Entry(op.id, Value(op.datalen, op.data))]
    case Get => m
    case Del => m - {op.key}
  }

  function Answer(m: map<nat, Entry>, op: Op): Result {
    match op.kind
    case Put => Result(0, None)
    case Get => if op.key in m then Result(0, Some(m[op.key].value)) else Result(-1, None)
    case Del => Result(if op.key in m then 0 else -1, None)
  }

  /** The map after the first n operations. */
  function SeqMap(ops: seq<Op>, n: nat): map<nat, Entry>
    requires n <= |ops|
  {
    if n == 0 then map[] else Apply(SeqMap(ops, n - 1), ops[n - 1])
  }

  /** The PUTs that find their key absent: each of them takes a slot that was never used. */
  ghost function FreshPuts(ops: seq<Op>): set<nat> {
    set i: nat | i < |ops| && ops[i].kind == Put && ops[i].key !in SeqMap(ops, i)
  }

  /** An operation changes nothing about other keys. */
  lemma ApplyOther(m: map<nat, Entry>, op: Op, key: nat)
    requires op.key != key
    ensures Lookup(Apply(m, op), key) == Lookup(m, key)
  {
  }

  /** Only operations on a key change what the map says about it. */
  lemma {:induction false} SeqMapKey(ops: seq<Op>, a: nat, b: nat, key: nat)
    requires a <= b <= |ops|
    requires forall j :: a <= j < b ==> ops[j].key != key
    ensures Lookup(SeqMap(ops, a), key) == Lookup(SeqMap(ops, b), key)
    decreases b
  {
    if a < b {
      SeqMapKey(ops, a, b - 1, key);
      ApplyOther(SeqMap(ops, b - 1), ops[b - 1], key);
    }
  }

  /** Operation j is the last PUT on the key among the first n, with no DEL behind it. */
  ghost predicate LastPut(ops: seq<Op>, n: nat, key: nat, j: nat) {
    && j < n <= |ops| && ops[j].kind == Put && ops[j].key == key
    && forall i :: j < i < n && ops[i].key == key ==> ops[i].kind == Get
  }

  /** A key is in the map when there is such a PUT, and has what that PUT gave it. */
  lemma {:induction false} SeqMapEntry(ops: seq<Op>, n: nat, key: nat)
    requires n <= |ops|
    ensures key in SeqMap(ops, n) <==> exists j: nat :: LastPut(ops, n, key, j)
    ensures forall j: nat :: LastPut(ops, n, key, j) ==>
              key in SeqMap(ops, n) && SeqMap(ops, n)[key] == Entry(ops[j].id, Value(ops[j].datalen, ops[j].data))
  {
    if n > 0 {
      var m := n - 1;
      SeqMapEntry(ops, m, key);
      forall j: nat | LastPut(ops, n, key, j) && j < m
        ensures LastPut(ops, m, key, j) && (ops[m].key == key ==> ops[m].kind == Get)
      {
      }
      if ops[m].key == key && ops[m].kind == Put {
        assert LastPut(ops, n, key, m);
      }
      if j: nat :| LastPut(ops, m, key, j) && (ops[m].key == key ==> ops[m].kind == Get) {
        assert LastPut(ops, n, key, j);
      }
    }
  }

  /** A result depends on the map only at the key of the operation. */
  lemma AnswerKey(m: map<nat, Entry>, m': map<nat, Entry>, op: Op)
    requires Lookup(m, op.key) == Lookup(m', op.key)
    ensures Answer(m, op) == Answer(m', op)
    ensures Lookup(Apply(m, op), op.key) == Lookup(Apply(m', op), op.key)
  {
  }
}
