/** How megakernel instructions become words and a padded tensor: Megakernels/megakernels/
    instructions.py and scheduler.py. */
module Tensorize {
  import opened DivMod
  import opened Results

  const INTS_PER_INSTRUCTION: nat := 32

  // ----- Instructions -----

  /** A field's value: an integer, a tuple, a list, `None`, or something that cannot be
      serialised.  Lengths count as words. */
  datatype Field = Int(value: int) | Tuple(items: seq<int>) | List(items: seq<int>) | NoneField | Other

  /** `global_idx` marks the field of that name, which is not serialised. */
  datatype Named = Named(globalIdx: bool, field: Field)
  datatype Instruction = Instruction(opcode: int, fields: seq<Named>)

  const NOOP := Instruction(0, [])

  // ----- `serialize` -----

  /** The words of one field. */
  function FieldWords(f: Named): seq<int> {
    if f.globalIdx then []
    else
      match f.field
      case Int(v) => [v]
      case Tuple(items) => [|items|] + items
      case List(items) => [|items|] + items
      case NoneField => [0]
      case Other => []
  }

  function FieldsWords(fields: seq<Named>): seq<int> {
    if fields == [] then [] else FieldWords(fields[0]) + FieldsWords(fields[1..])
  }

  ghost predicate Serialisable(i: Instruction) {
    forall k :: 0 <= k < |i.fields| ==> Supported(i.fields[k])
  }

  lemma {:induction false} FieldsWordsNext(fields: seq<Named>, k: nat)
    requires k < |fields|
    ensures FieldsWords(fields[..k + 1]) == FieldsWords(fields[..k]) + FieldWords(fields[k])
    decreases k
  {
    hide FieldWords;
    if k > 0 {
      FieldsWordsNext(fields[1..], k - 1);
      assert fields[..k + 1][1..] == fields[1..][..k] && fields[..k][1..] == fields[1..][..k - 1];
    } else {
      assert fields[..1][1..] == [];
    }
  }

  predicate Supported(f: Named) {
    f.globalIdx || !f.field.Other?
  }

  /** What a field's words are. */
  lemma FieldWordsAre(f: Named)
    ensures f.globalIdx ==> FieldWords(f) == []
    ensures !f.globalIdx && f.field.Int? ==> FieldWords(f) == [f.field.value]
    ensures !f.globalIdx && (f.field.Tuple? || f.field.List?) ==> FieldWords(f) == [|f.field.items|] + f.field.items
    ensures !f.globalIdx && f.field.NoneField? ==> FieldWords(f) == [0]
  {
  }

  /** The body of the loop of `serialize`, for one field. */
  method AppendField(words: seq<int>, f: Named) returns (r: Result<seq<int>>)
    ensures r.Ok? <==> f.globalIdx || !f.field.Other?
    ensures r.Ok? ==> r.value == words + FieldWords(f)
  {
    if f.globalIdx { return Ok(words); }
    match f.field
    case Int(v) => r := Ok(words + [v]);
    case Tuple(items) =>
      var longer := words + [|items|];
      assert words + ([|items|] + items) == longer + items;
      r := Ok(longer + items);
    case List(items) =>
      var longer := words + [|items|];
      assert words + ([|items|] + items) == longer + items;
      r := Ok(longer + items);
    case NoneField => r := Ok(words + [0]);
    case Other => r := Err("Unsupported field type");
  }

  method Serialize(i: Instruction) returns (r: Result<seq<int>>)
    ensures r.Ok? <==> forall k :: 0 <= k < |i.fields| ==> i.fields[k].globalIdx || !i.fields[k].field.Other?
    ensures r.Ok? <==> Serialisable(i)
    ensures r.Ok? ==> r.value == [i.opcode] + FieldsWords(i.fields)
  {
    hide FieldsWords, FieldWords;
    var words := [i.opcode];
    assert FieldsWords(i.fields[..0]) == [] by { NoFields(i.fields[..0]); }
    for k := 0 to |i.fields|
      invariant forall j :: 0 <= j < k ==> Supported(i.fields[j])
      invariant words == [i.opcode] + FieldsWords(i.fields[..k])
    {
      FieldsWordsNext(i.fields, k);
      var next := AppendField(words, i.fields[k]);
      if next.Err? { return next; }
      words := next.value;
    }
    assert i.fields[..|i.fields|] == i.fields;
    r := Ok(words);
  }

  lemma NoFields(fields: seq<Named>)
    requires fields == []
    ensures FieldsWords(fields) == []
  {
  }

  // ----- Reading the words back -----

  /** The kernels know each opcode's schema: which fields it has, in order. */
  datatype Kind = Skipped | Number | Items

  /** What the words keep of a field: `None` reads as 0 or as the empty list, and a tuple as a
      list. */
  datatype Value = Absent | Num(n: int) | Many(items: seq<int>)

  ghost predicate Fits(f: Named, k: Kind) {
    if f.globalIdx then k == Skipped
    else
      match f.field
      case Int(_) => k == Number
      case Tuple(_) => k == Items
      case List(_) => k == Items
      case NoneField => k == Number || k == Items
      case Other => false
  }

  ghost predicate HasSchema(fields: seq<Named>, schema: seq<Kind>) {
    |fields| == |schema| && forall i :: 0 <= i < |fields| ==> Fits(fields[i], schema[i])
  }

  function Kept(f: Named, k: Kind): Value {
    match k
    case Skipped => Absent
    case Number => if f.field.Int? then Num(f.field.value) else Num(0)
    case Items => if f.field.Tuple? || f.field.List? then Many(f.field.items) else Many([])
  }

  function KeptAll(fields: seq<Named>, schema: seq<Kind>): seq<Value>
    requires |fields| == |schema|
  {
    if fields == [] then [] else [Kept(fields[0], schema[0])] + KeptAll(fields[1..], schema[1..])
  }

  /** Reads the fields of a schema off the front of `words`. */
  function Decode(words: seq<int>, schema: seq<Kind>): Result<seq<Value>> {
    if schema == [] then Ok([])
    else if schema[0] == Skipped then Prepend(Absent, Decode(words, schema[1..]))
    else if words == [] then Err("no more words")
    else if schema[0] == Number then Prepend(Num(words[0]), Decode(words[1..], schema[1..]))
    else if words[0] < 0 || words[0] > |words| - 1 then Err("bad length")
    else Prepend(Many(words[1..1 + words[0]]), Decode(words[1 + words[0]..], schema[1..]))
  }

  function Prepend(v: Value, rest: Result<seq<Value>>): Result<seq<Value>> {
    match rest
    case Ok(vs) => Ok([v] + vs)
    case Err(e) => Err(e)
  }

  /** Decoding recovers every field, whatever follows the instruction's words. */
  lemma {:induction false} DecodeWords(fields: seq<Named>, schema: seq<Kind>, padding: seq<int>)
    requires HasSchema(fields, schema)
    ensures Decode(FieldsWords(fields) + padding, schema) == Ok(KeptAll(fields, schema))
  {
    if fields != [] {
      var rest := FieldsWords(fields[1..]) + padding;
      var words := FieldsWords(fields) + padding;
      assert words == FieldWords(fields[0]) + rest;
      assert Fits(fields[0], schema[0]);
      DecodeWords(fields[1..], schema[1..], padding);
      DecodeFirst(fields[0], schema[0], words, rest, schema);
    }
  }

  lemma DecodeFirst(f: Named, k: Kind, words: seq<int>, rest: seq<int>, schema: seq<Kind>)
    requires Fits(f, k) && words == FieldWords(f) + rest && schema != [] && schema[0] == k
    ensures Decode(words, schema) == Prepend(Kept(f, k), Decode(rest, schema[1..]))
  {
    if k == Skipped {
      assert words == rest;
    } else if k == Number {
      assert words[1..] == rest;
    } else {
      var items := Kept(f, k).items;
      assert words == [|items|] + items + rest;
      assert words[1..1 + |items|] == items && words[1 + |items|..] == rest;
    }
  }

  /** Field by field: integers, tuples and lists come back, `None` as 0 or as the empty list. */
  lemma {:induction false} DecodedField(fields: seq<Named>, schema: seq<Kind>, padding: seq<int>, k: nat)
    requires HasSchema(fields, schema) && k < |fields|
    ensures var r := Decode(FieldsWords(fields) + padding, schema);
      && r.Ok? && |r.value| == |fields|
      && var f := fields[k];
         && (f.globalIdx ==> r.value[k] == Absent)
         && (!f.globalIdx && f.field.Int? ==> r.value[k] == Num(f.field.value))
         && (!f.globalIdx && (f.field.Tuple? || f.field.List?) ==> r.value[k] == Many(f.field.items))
         && (!f.globalIdx && f.field.NoneField? ==> r.value[k] == if schema[k] == Number then Num(0) else Many([]))
  {
    DecodeWords(fields, schema, padding);
    KeptAt(fields, schema, k);
    assert Fits(fields[k], schema[k]);
    hide FieldsWords, Decode, KeptAll, HasSchema;
  }

  lemma {:induction false} KeptAt(fields: seq<Named>, schema: seq<Kind>, k: nat)
    requires |fields| == |schema| && k < |fields|
    ensures |KeptAll(fields, schema)| == |fields| && KeptAll(fields, schema)[k] == Kept(fields[k], schema[k])
  {
    if |fields| > 1 { KeptAt(fields[1..], schema[1..], if k > 0 then k - 1 else 0); }
  }

  /** A type's schema fixes where every word goes, so instructions of one type with the same
      words keep the same values. */
  lemma SameWordsSameValues(a: seq<Named>, b: seq<Named>, schema: seq<Kind>)
    requires HasSchema(a, schema) && HasSchema(b, schema) && FieldsWords(a) == FieldsWords(b)
    ensures KeptAll(a, schema) == KeptAll(b, schema)
  {
    DecodeWords(a, schema, []);
    DecodeWords(b, schema, []);
  }

  // ----- `serialize_and_pad` -----

  function Words(i: Instruction): seq<int> {
    [i.opcode] + FieldsWords(i.fields)
  }

  ghost predicate Encodable(i: Instruction) {
    Serialisable(i) && |Words(i)| <= INTS_PER_INSTRUCTION
  }

  function Zeros(n: nat): seq<int> {
    seq(n, _ => 0)
  }

  function Padded(i: Instruction): (r: seq<int>)
    ensures |Words(i)| <= INTS_PER_INSTRUCTION ==> |r| == INTS_PER_INSTRUCTION
  {
    Words(i) + Zeros(if |Words(i)| <= INTS_PER_INSTRUCTION then INTS_PER_INSTRUCTION - |Words(i)| else 0)
  }

  method SerializeAndPad(i: Instruction) returns (r: Result<seq<int>>)
    ensures r.Ok? <==> Serialisable(i) && 1 + |FieldsWords(i.fields)| <= 32
    ensures r.Ok? <==> Encodable(i)
    ensures r.Ok? ==> r.value == Padded(i)
    ensures r.Ok? ==> |r.value| == 32 && Words(i) <= r.value && forall k :: |Words(i)| <= k < 32 ==> r.value[k] == 0
  {
    r := Serialize(i);
    if r.Ok? {
      var numPadding := INTS_PER_INSTRUCTION - |r.value|;
      if numPadding < 0 { return Err("AssertionError"); }
      r := Ok(r.value + Zeros(numPadding));
    }
  }

  // ----- `tensorize_instructions` -----

  /** The length of the longest queue. */
  function MaxLength(queues: seq<seq<Instruction>>): (m: nat)
    ensures forall q :: 0 <= q < |queues| ==> |queues[q]| <= m
    ensures if queues == [] then m == 0 else exists q :: 0 <= q < |queues| && |queues[q]| == m
  {
    if queues == [] then 0
    else
      var n := |queues| - 1;
      var m := MaxLength(queues[..n]);
      assert forall q :: 0 <= q < n ==> |queues[..n][q]| <= m;
      assert n > 0 ==> exists q :: 0 <= q < n && |queues[q]| == m by {
        if n > 0 {
          var q :| 0 <= q < n && |queues[..n][q]| == m;
          assert |queues[q]| == m;
        }
      }
      if |queues[n]| > m then |queues[n]| else m
  }

  function Extended(queue: seq<Instruction>, m: nat): (r: seq<Instruction>)
    requires |queue| <= m
    ensures |r| == m
  {
    queue + seq(m - |queue|, _ => NOOP)
  }

  function FlatQueue(queue: seq<Instruction>): seq<int> {
    if queue == [] then [] else FlatQueue(queue[..|queue| - 1]) + Padded(queue[|queue| - 1])
  }

  function Flat(queues: seq<seq<Instruction>>, m: nat): seq<int>
    requires forall q :: 0 <= q < |queues| ==> |queues[q]| <= m
  {
    if queues == [] then []
    else
      var n := |queues| - 1;
      Flat(queues[..n], m) + FlatQueue(Extended(queues[n], m))
  }

  lemma FlatQueueNext(queue: seq<Instruction>, j: nat)
    requires j < |queue|
    ensures FlatQueue(queue[..j + 1]) == FlatQueue(queue[..j]) + Padded(queue[j])
  {
    assert queue[..j + 1][..j] == queue[..j];
    hide Padded;
  }

  lemma FlatNext(queues: seq<seq<Instruction>>, m: nat, q: nat)
    requires q < |queues| && forall s :: 0 <= s < |queues| ==> |queues[s]| <= m
    ensures Flat(queues[..q + 1], m) == Flat(queues[..q], m) + FlatQueue(Extended(queues[q], m))
  {
    assert queues[..q + 1][..q] == queues[..q];
    hide FlatQueue, Extended;
  }

  lemma NothingFlat(queues: seq<seq<Instruction>>, m: nat)
    ensures queues[..0] == [] && Flat([], m) == [] && FlatQueue([]) == []
  {
  }

  predicate Int32(x: int) {
    -0x8000_0000 <= x < 0x8000_0000
  }

  ghost predicate AllEncodable(queues: seq<seq<Instruction>>) {
    forall q, j :: 0 <= q < |queues| && 0 <= j < |queues[q]| ==> Encodable(queues[q][j])
  }

  lemma EncodableIs(queues: seq<seq<Instruction>>)
    ensures AllEncodable(queues) <==>
      forall q, j :: 0 <= q < |queues| && 0 <= j < |queues[q]| ==> Encodable(queues[q][j])
  {
  }

  /** The inner loop of `tensorize_instructions`. */
  method FlattenQueue(queue: seq<Instruction>) returns (r: Result<seq<int>>)
    ensures r.Ok? <==> forall j :: 0 <= j < |queue| ==> Encodable(queue[j])
    ensures r.Ok? ==> r.value == FlatQueue(queue)
  {
    hide Encodable, Padded, FlatQueue;
    var words := [];
    NothingFlat([], 0);
    assert queue[..0] == [];
    for j := 0 to |queue|
      invariant words == FlatQueue(queue[..j])
      invariant forall k :: 0 <= k < j ==> Encodable(queue[k])
    {
      FlatQueueNext(queue, j);
      var row := SerializeAndPad(queue[j]);
      if row.Err? { return row; }
      words := words + row.value;
    }
    assert queue[..|queue|] == queue;
    r := Ok(words);
  }

  lemma ExtendedEncodable(queue: seq<Instruction>, m: nat)
    requires |queue| <= m
    ensures (forall j :: 0 <= j < m ==> Encodable(Extended(queue, m)[j]))
       <==> forall j :: 0 <= j < |queue| ==> Encodable(queue[j])
  {
    var queue' := Extended(queue, m);
    assert Encodable(NOOP);
    forall j | 0 <= j < m ensures queue'[j] == if j < |queue| then queue[j] else NOOP { }
    hide Encodable;
    if forall j :: 0 <= j < m ==> Encodable(queue'[j]) {
      forall j | 0 <= j < |queue| ensures Encodable(queue[j]) { assert Encodable(queue'[j]); }
    }
  }

  /** The outer loop of `tensorize_instructions`. */
  method FlattenQueues(queues: seq<seq<Instruction>>, m: nat) returns (r: Result<seq<int>>)
    requires forall q :: 0 <= q < |queues| ==> |queues[q]| <= m
    ensures r.Ok? <==> AllEncodable(queues)
    ensures r.Ok? ==> r.value == Flat(queues, m)
  {
    hide Encodable, FlatQueue, Extended, Flat;
    var flattened := [];
    NothingFlat(queues, m);
    for q := 0 to |queues|
      invariant flattened == Flat(queues[..q], m)
      invariant forall s, j :: 0 <= s < q && 0 <= j < |queues[s]| ==> Encodable(queues[s][j])
    {
      FlatNext(queues, m, q);
      ExtendedEncodable(queues[q], m);
      var rows := FlattenQueue(Extended(queues[q], m));
      if rows.Err? { return rows; }
      flattened := flattened + rows.value;
    }
    assert queues[..|queues|] == queues;
    r := Ok(flattened);
  }

  /** `torch.tensor(..., dtype=torch.int32)` refuses wider words. */
  method FitsInt32(words: seq<int>) returns (ok: bool)
    ensures ok <==> AllInt32(words)
  {
    for k := 0 to |words|
      invariant forall i :: 0 <= i < k ==> Int32(words[i])
    {
      if !Int32(words[k]) { return false; }
    }
    ok := true;
  }

  /** `tensorize_instructions`: extends every queue with NoOps to the longest and flattens them.
      There is a longest queue if there is any; if all are empty, the tensor has no rows. */
  method TensorizeInstructions(numSms: nat, queues: seq<seq<Instruction>>) returns (r: Result<seq<int>>)
    requires |queues| == numSms
    ensures r.Ok? <==>
      && queues != [] && (forall q, j :: 0 <= q < |queues| && 0 <= j < |queues[q]| ==> Encodable(queues[q][j]))
      && var words := Flat(queues, MaxLength(queues));
         forall k :: 0 <= k < |words| ==> -0x8000_0000 <= words[k] <= 0x7fff_ffff
    ensures r.Ok? ==> r.value == Flat(queues, MaxLength(queues))
    ensures r.Ok? ==> exists q ::
      && 0 <= q < |queues| && (forall s :: 0 <= s < |queues| ==> |queues[s]| <= |queues[q]|)
      && |r.value| == numSms * (|queues[q]| * INTS_PER_INSTRUCTION)
  {
    if queues == [] { return Err("max() of an empty sequence"); }
    Int32Is(Flat(queues, MaxLength(queues)));
    EncodableIs(queues);
    var maxQueueLen := MaxLength(queues);
    hide AllEncodable, MaxLength, Flat;
    r := FlattenQueues(queues, maxQueueLen);
    if r.Err? { return; }
    AllFit(queues, maxQueueLen);
    FlatLength(queues, maxQueueLen, maxQueueLen * INTS_PER_INSTRUCTION);
    var ok := FitsInt32(r.value);
    if !ok { return Err("overflow"); }
  }

  lemma Int32Is(words: seq<int>)
    ensures AllInt32(words) <==> forall k :: 0 <= k < |words| ==> -0x8000_0000 <= words[k] <= 0x7fff_ffff
  {
    if forall k :: 0 <= k < |words| ==> -0x8000_0000 <= words[k] <= 0x7fff_ffff {
      forall k | 0 <= k < |words| ensures Int32(words[k]) { }
    }
    if AllInt32(words) {
      forall k | 0 <= k < |words| ensures -0x8000_0000 <= words[k] <= 0x7fff_ffff { assert Int32(words[k]); }
    }
  }

  ghost predicate AllInt32(words: seq<int>) {
    forall k :: 0 <= k < |words| ==> Int32(words[k])
  }

  // ----- Rows of the tensor -----

  function Slice<T>(s: seq<T>, from: nat, n: nat): (r: seq<T>)
    requires from + n <= |s|
    ensures |r| == n
  {
    s[from..from + n]
  }

  lemma SliceFront<T>(a: seq<T>, b: seq<T>, from: nat, n: nat)
    requires from + n <= |a|
    ensures Slice(a + b, from, n) == Slice(a, from, n)
  {
  }

  lemma SliceBack<T>(a: seq<T>, b: seq<T>)
    ensures Slice(a + b, |a|, |b|) == b
  {
  }

  lemma SliceOfSlice<T>(s: seq<T>, a: nat, n: nat, c: nat, k: nat)
    requires a + n <= |s| && c + k <= n
    ensures Slice(Slice(s, a, n), c, k) == Slice(s, a + c, k)
  {
    forall i | 0 <= i < k ensures Slice(Slice(s, a, n), c, k)[i] == Slice(s, a + c, k)[i] {
      assert Slice(Slice(s, a, n), c, k)[i] == Slice(s, a, n)[c + i] == s[a + c + i];
    }
  }

  /** A concatenation of equal-sized blocks. */
  lemma {:induction false} FlatQueueRow(queue: seq<Instruction>, j: nat)
    requires j < |queue| && forall k :: 0 <= k < |queue| ==> Encodable(queue[k])
    ensures |FlatQueue(queue)| == |queue| * INTS_PER_INSTRUCTION
    ensures j * INTS_PER_INSTRUCTION + INTS_PER_INSTRUCTION <= |FlatQueue(queue)|
    ensures Slice(FlatQueue(queue), j * INTS_PER_INSTRUCTION, INTS_PER_INSTRUCTION) == Padded(queue[j])
  {
    hide FlatQueue, Slice, Padded;
    var n := |queue| - 1;
    assert |Padded(queue[n])| == INTS_PER_INSTRUCTION by { assert Encodable(queue[n]); }
    hide Encodable;
    FlatQueueNext(queue, n);
    assert queue[..n + 1] == queue;
    var rest := queue[..n];
    if n == 0 {
      NothingFlat([], 0);
      assert rest == [];
    } else {
      FlatQueueRow(rest, if j < n then j else 0);
    }
    if j < n {
      assert rest[j] == queue[j];
      SliceFront(FlatQueue(rest), Padded(queue[n]), j * INTS_PER_INSTRUCTION, INTS_PER_INSTRUCTION);
    } else {
      SliceBack(FlatQueue(rest), Padded(queue[n]));
    }
  }

  ghost predicate QueuesFit(queues: seq<seq<Instruction>>, m: nat, size: nat) {
    forall s :: 0 <= s < |queues| ==> |queues[s]| <= m && |FlatQueue(Extended(queues[s], m))| == size
  }

  lemma {:induction false} FlatLength(queues: seq<seq<Instruction>>, m: nat, size: nat)
    requires QueuesFit(queues, m, size)
    ensures |Flat(queues, m)| == |queues| * size
  {
    hide FlatQueue, Extended, Flat;
    if queues == [] {
      NothingFlat(queues, m);
    } else {
      var n := |queues| - 1;
      assert queues[..n + 1] == queues;
      FlatNext(queues, m, n);
      FlatLength(queues[..n], m, size);
      assert |FlatQueue(Extended(queues[n], m))| == size;
      hide QueuesFit;
      assert |queues| * size == n * size + size;
    }
  }

  /** The queues' words stand one after another. */
  lemma {:induction false} FlatSlice(queues: seq<seq<Instruction>>, m: nat, q: nat)
    requires (forall s :: 0 <= s < |queues| ==> |queues[s]| <= m) && q < |queues|
    ensures var at, words := |Flat(queues[..q], m)|, FlatQueue(Extended(queues[q], m));
      at + |words| <= |Flat(queues, m)| && Slice(Flat(queues, m), at, |words|) == words
    decreases |queues|
  {
    var n := |queues| - 1;
    assert queues[..n + 1] == queues;
    FlatNext(queues, m, n);
    hide FlatQueue, Extended, Flat, Slice;
    if q < n {
      assert queues[..n][..q] == queues[..q];
      FlatSlice(queues[..n], m, q);
      SliceFront(Flat(queues[..n], m), FlatQueue(Extended(queues[n], m)), |Flat(queues[..q], m)|,
                 |FlatQueue(Extended(queues[q], m))|);
    } else {
      SliceBack(Flat(queues[..n], m), FlatQueue(Extended(queues[n], m)));
    }
  }

  /** Row (q, j) of the tensor, `view(num_sms, -1, INTS_PER_INSTRUCTION)`. */
  function Row(words: seq<int>, numSms: nat, q: nat, j: nat): seq<int>
    requires numSms > 0
  {
    var rows := |words| / numSms / INTS_PER_INSTRUCTION;
    var at := (q * rows + j) * INTS_PER_INSTRUCTION;
    if at + INTS_PER_INSTRUCTION <= |words| then Slice(words, at, INTS_PER_INSTRUCTION) else []
  }

  lemma RowOffset(words: nat, numSms: nat, m: nat, q: nat, j: nat)
    requires numSms > 0 && words == numSms * (m * INTS_PER_INSTRUCTION)
    ensures words / numSms / INTS_PER_INSTRUCTION == m
    ensures (q * m + j) * INTS_PER_INSTRUCTION == q * (m * INTS_PER_INSTRUCTION) + j * INTS_PER_INSTRUCTION
  {
    var size := m * INTS_PER_INSTRUCTION;
    assert words == size * numSms + 0;
    Unique(size, 0, numSms);
    assert q * size == q * m * INTS_PER_INSTRUCTION;
  }

  lemma AllFit(queues: seq<seq<Instruction>>, m: nat)
    requires AllEncodable(queues) && forall s :: 0 <= s < |queues| ==> |queues[s]| <= m
    ensures QueuesFit(queues, m, m * INTS_PER_INSTRUCTION)
  {
    hide FlatQueue, Extended, Encodable, Slice;
    NothingFlat([], 0);
    forall s | 0 <= s < |queues| ensures |FlatQueue(Extended(queues[s], m))| == m * INTS_PER_INSTRUCTION {
      ExtendedEncodable(queues[s], m);
      if m > 0 {
        FlatQueueRow(Extended(queues[s], m), 0);
      } else {
        assert Extended(queues[s], m) == [];
      }
    }
  }

  /** The queues before queue q fill q blocks. */
  lemma QueueOffset(queues: seq<seq<Instruction>>, m: nat, q: nat)
    requires AllEncodable(queues) && (forall s :: 0 <= s < |queues| ==> |queues[s]| <= m) && q <= |queues|
    ensures |Flat(queues[..q], m)| == q * (m * INTS_PER_INSTRUCTION)
  {
    hide AllEncodable, Flat, FlatQueue, Extended;
    AllFit(queues, m);
    assert QueuesFit(queues[..q], m, m * INTS_PER_INSTRUCTION);
    hide QueuesFit;
    FlatLength(queues[..q], m, m * INTS_PER_INSTRUCTION);
  }

  /** Queue q's j-th row, extended with NoOps, stands in its block. */
  lemma RowInQueue(queues: seq<seq<Instruction>>, m: nat, q: nat, j: nat)
    requires AllEncodable(queues) && (forall s :: 0 <= s < |queues| ==> |queues[s]| <= m) && q < |queues| && j < m
    ensures var words, at := FlatQueue(Extended(queues[q], m)), j * INTS_PER_INSTRUCTION;
      && |words| == m * INTS_PER_INSTRUCTION && at + INTS_PER_INSTRUCTION <= |words|
      && Slice(words, at, INTS_PER_INSTRUCTION) == Padded(Extended(queues[q], m)[j])
  {
    hide FlatQueue, Extended, Encodable, Slice, Padded;
    ExtendedEncodable(queues[q], m);
    FlatQueueRow(Extended(queues[q], m), j);
  }

  lemma RowIs(queues: seq<seq<Instruction>>, m: nat, q: nat, j: nat)
    requires AllEncodable(queues) && (forall s :: 0 <= s < |queues| ==> |queues[s]| <= m) && q < |queues| && j < m
    ensures Row(Flat(queues, m), |queues|, q, j) == Padded(Extended(queues[q], m)[j])
  {
    hide Flat, FlatQueue, Extended, Padded, AllEncodable, Slice, Row;
    var words, size := Flat(queues, m), m * INTS_PER_INSTRUCTION;
    QueueOffset(queues, m, |queues|);
    assert queues[..|queues|] == queues;
    QueueOffset(queues, m, q);
    FlatSlice(queues, m, q);
    RowInQueue(queues, m, q, j);
    RowAt(words, |queues|, m, q, j, q * size);
    SliceOfSlice(words, q * size, size, j * INTS_PER_INSTRUCTION, INTS_PER_INSTRUCTION);
  }

  lemma RowAt(words: seq<int>, numSms: nat, m: nat, q: nat, j: nat, at: nat)
    requires numSms > 0 && |words| == numSms * (m * INTS_PER_INSTRUCTION) && at == q * (m * INTS_PER_INSTRUCTION)
    requires at + j * INTS_PER_INSTRUCTION + INTS_PER_INSTRUCTION <= |words|
    ensures Row(words, numSms, q, j) == Slice(words, at + j * INTS_PER_INSTRUCTION, INTS_PER_INSTRUCTION)
  {
    RowOffset(|words|, numSms, m, q, j);
    hide Slice;
  }

  lemma PaddedDecodes(i: Instruction, schema: seq<Kind>)
    requires Encodable(i) && HasSchema(i.fields, schema)
    ensures |Padded(i)| == INTS_PER_INSTRUCTION && Padded(i)[0] == i.opcode
    ensures Decode(Padded(i)[1..], schema) == Ok(KeptAll(i.fields, schema))
  {
    var padding := Zeros(INTS_PER_INSTRUCTION - |Words(i)|);
    assert Padded(i)[1..] == FieldsWords(i.fields) + padding;
    DecodeWords(i.fields, schema, padding);
  }

  lemma PaddedNoOp()
    ensures Padded(NOOP) == Zeros(INTS_PER_INSTRUCTION) && |Zeros(INTS_PER_INSTRUCTION)| == INTS_PER_INSTRUCTION
    ensures Zeros(INTS_PER_INSTRUCTION)[0] == NOOP.opcode
  {
    assert Words(NOOP) == [0];
  }

  /** The round trip: row (q, j) of the tensor begins with the opcode of queue q's j-th
      instruction and decodes, by that instruction's schema, to its fields; past the end of the
      queue it is a NoOp. */
  lemma TensorRoundTrip(queues: seq<seq<Instruction>>, q: nat, j: nat, schema: seq<Kind>)
    requires AllEncodable(queues) && q < |queues| && j < MaxLength(queues)
    requires j < |queues[q]| ==> HasSchema(queues[q][j].fields, schema)
    ensures var row := Row(Flat(queues, MaxLength(queues)), |queues|, q, j);
      && |row| == INTS_PER_INSTRUCTION
      && if j < |queues[q]|
         then row[0] == queues[q][j].opcode && Decode(row[1..], schema) == Ok(KeptAll(queues[q][j].fields, schema))
         else row == Zeros(INTS_PER_INSTRUCTION) && row[0] == NOOP.opcode
  {
    RowIs(queues, MaxLength(queues), q, j);
    hide Row, Flat, MaxLength, Padded, Decode, KeptAll, HasSchema, Encodable;
    if j < |queues[q]| { PaddedDecodes(queues[q][j], schema); } else { PaddedNoOp(); }
  }
}
