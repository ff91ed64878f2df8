/**
 The ONNX messages tools/generate_piper_speaker_fixture.py writes, as concatenations of encoded
 fields, and a decoder that reads every one of them back.
 */
module OnnxFixture {
  import opened Wrappers
  import opened Binary
  import opened Sequences
  import opened Protobuf

  /** A 32-bit float sample, as the four bytes the encoder packs. */
  type Word = w: Bytes | |w| == 4 witness [0, 0, 0, 0]

  datatype Dim = Size(size: nat) | Symbol(symbol: Bytes)

  datatype ValueInfo = ValueInfo(name: Bytes, kind: nat, dims: seq<Dim>)

  datatype Tensor = Tensor(name: Bytes, dims: seq<nat>, samples: seq<Word>)

  /** An integer attribute, with the number of its kind. */
  datatype Attribute = Attribute(name: Bytes, value: nat, kind: nat)

  datatype Node = Node(operation: Bytes, inputs: seq<Bytes>, output: Bytes, attribute: Option<Attribute>)

  datatype Graph = Graph(nodes: seq<Node>, name: Bytes, initializers: seq<Tensor>,
                         inputs: seq<ValueInfo>, outputs: seq<ValueInfo>)

  datatype Model = Model(irVersion: nat, producer: Bytes, graph: Graph, opset: nat)

  // ---------------------------------------------------------------- encoding

  function DimBytes(d: Dim): Bytes {
    match d
    case Size(size) => Integer(1, size)
    case Symbol(symbol) => Blob(2, symbol)
  }

  function ValueInfoBytes(v: ValueInfo): Bytes {
    var shape := FlatMap((d: Dim) => Blob(1, DimBytes(d)), v.dims);
    var tensorType := Integer(1, v.kind) + Blob(2, shape);
    Blob(1, v.name) + Blob(2, Blob(1, tensorType))
  }

  function SampleBytes(samples: seq<Word>): Bytes {
    if samples == [] then [] else samples[0] + SampleBytes(samples[1..])
  }

  function TensorBytes(t: Tensor): Bytes {
    FlatMap((d: nat) => Integer(1, d), t.dims) + Integer(2, 1) + Blob(8, t.name) + Blob(9, SampleBytes(t.samples))
  }

  function AttributeBytes(a: Attribute): Bytes {
    Blob(1, a.name) + Integer(3, a.value) + Integer(20, a.kind)
  }

  function NodeBytes(n: Node): Bytes {
    FlatMap((name: Bytes) => Blob(1, name), n.inputs) + Blob(2, n.output) + Blob(4, n.operation)
    + if n.attribute.Some? then Blob(5, AttributeBytes(n.attribute.value)) else []
  }

  function GraphBytes(g: Graph): Bytes {
    FlatMap((n: Node) => Blob(1, NodeBytes(n)), g.nodes) + Blob(2, g.name)
    + FlatMap((t: Tensor) => Blob(5, TensorBytes(t)), g.initializers)
    + FlatMap((v: ValueInfo) => Blob(11, ValueInfoBytes(v)), g.inputs)
    + FlatMap((v: ValueInfo) => Blob(12, ValueInfoBytes(v)), g.outputs)
  }

  function ModelBytes(m: Model): Bytes {
    Integer(1, m.irVersion) + Blob(2, m.producer) + Blob(7, GraphBytes(m.graph)) + Blob(8, Integer(2, m.opset))
  }

  // ---------------------------------------------------------------- decoding

  function Single<T>(s: seq<T>): Option<T> {
    if |s| == 1 then Some(s[0]) else None
  }

  function DecodeEach<T>(decode: Bytes -> Option<T>, contents: seq<Bytes>): Option<seq<T>> {
    if contents == [] then Some([])
    else
      var first :- decode(contents[0]);
      var rest :- DecodeEach(decode, contents[1..]);
      Some([first] + rest)
  }

  function DecodeDim(bytes: Bytes): Option<Dim> {
    var fields :- ParseAll(bytes);
    if |Ints(fields, 1)| == 1 && Blobs(fields, 2) == [] then Some(Size(Ints(fields, 1)[0]))
    else
      var symbol :- Single(Blobs(fields, 2));
      Some(Symbol(symbol))
  }

  function DecodeValueInfo(bytes: Bytes): Option<ValueInfo> {
    var fields :- ParseAll(bytes);
    var name :- Single(Blobs(fields, 1));
    var typeBytes :- Single(Blobs(fields, 2));
    var typeFields :- ParseAll(typeBytes);
    var tensorBytes :- Single(Blobs(typeFields, 1));
    var tensorFields :- ParseAll(tensorBytes);
    var kind :- Single(Ints(tensorFields, 1));
    var shapeBytes :- Single(Blobs(tensorFields, 2));
    var shapeFields :- ParseAll(shapeBytes);
    var dims :- DecodeEach(DecodeDim, Blobs(shapeFields, 1));
    Some(ValueInfo(name, kind, dims))
  }

  function DecodeSamples(bytes: Bytes): Option<seq<Word>> {
    if bytes == [] then Some([])
    else if |bytes| < 4 then None
    else
      var rest :- DecodeSamples(bytes[4..]);
      Some([bytes[..4]] + rest)
  }

  function DecodeTensor(bytes: Bytes): Option<Tensor> {
    var fields :- ParseAll(bytes);
    var name :- Single(Blobs(fields, 8));
    var data :- Single(Blobs(fields, 9));
    var samples :- DecodeSamples(data);
    if Ints(fields, 2) == [1] then Some(Tensor(name, Ints(fields, 1), samples)) else None
  }

  function DecodeAttribute(bytes: Bytes): Option<Attribute> {
    var fields :- ParseAll(bytes);
    var name :- Single(Blobs(fields, 1));
    var value :- Single(Ints(fields, 3));
    var kind :- Single(Ints(fields, 20));
    Some(Attribute(name, value, kind))
  }

  function DecodeNode(bytes: Bytes): Option<Node> {
    var fields :- ParseAll(bytes);
    var output :- Single(Blobs(fields, 2));
    var operation :- Single(Blobs(fields, 4));
    if Blobs(fields, 5) == [] then Some(Node(operation, Blobs(fields, 1), output, None))
    else
      var attributeBytes :- Single(Blobs(fields, 5));
      var attribute :- DecodeAttribute(attributeBytes);
      Some(Node(operation, Blobs(fields, 1), output, Some(attribute)))
  }

  function DecodeGraph(bytes: Bytes): Option<Graph> {
    var fields :- ParseAll(bytes);
    var nodes :- DecodeEach(DecodeNode, Blobs(fields, 1));
    var name :- Single(Blobs(fields, 2));
    var initializers :- DecodeEach(DecodeTensor, Blobs(fields, 5));
    var inputs :- DecodeEach(DecodeValueInfo, Blobs(fields, 11));
    var outputs :- DecodeEach(DecodeValueInfo, Blobs(fields, 12));
    Some(Graph(nodes, name, initializers, inputs, outputs))
  }

  function DecodeModel(bytes: Bytes): Option<Model> {
    var fields :- ParseAll(bytes);
    var irVersion :- Single(Ints(fields, 1));
    var producer :- Single(Blobs(fields, 2));
    var graphBytes :- Single(Blobs(fields, 7));
    var graph :- DecodeGraph(graphBytes);
    var opsetBytes :- Single(Blobs(fields, 8));
    var opsetFields :- ParseAll(opsetBytes);
    var opset :- Single(Ints(opsetFields, 2));
    Some(Model(irVersion, producer, graph, opset))
  }

  // ---------------------------------------------------------------- messages as field lists

  lemma EncodeTwo(a: seq<Field>, b: seq<Field>)
    ensures EncodeAll(a + b) == EncodeAll(a) + EncodeAll(b)
  {
    FlatMapAppend(Encode, a, b);
  }

  lemma EncodeOne(f: Field)
    ensures EncodeAll([f]) == Encode(f)
  {
    FlatMapOne(Encode, f);
  }

  /** A repeated record: its bytes, and what picking finds in it. */
  lemma Repeated<T>(number: nat, content: T -> Bytes, one: T -> Bytes, xs: seq<T>)
    requires forall x :: x in xs ==> one(x) == Blob(number, content(x))
    ensures EncodeAll(Map(AsBlob(number), Map(content, xs))) == FlatMap(one, xs)
    ensures forall k {:trigger Blobs(Map(AsBlob(number), Map(content, xs)), k)} ::
              Blobs(Map(AsBlob(number), Map(content, xs)), k) == if k == number then Map(content, xs) else []
    ensures forall k {:trigger Ints(Map(AsBlob(number), Map(content, xs)), k)} ::
              Ints(Map(AsBlob(number), Map(content, xs)), k) == []
  {
    var contents := Map(content, xs);
    FlatMapMap(Encode, AsBlob(number), (c: Bytes) => Blob(number, c), contents);
    FlatMapMap((c: Bytes) => Blob(number, c), content, one, xs);
    forall k
      ensures Blobs(Map(AsBlob(number), contents), k) == if k == number then contents else []
      ensures Ints(Map(AsBlob(number), contents), k) == []
    {
      FlatMapNone(IntIn(k), AsBlob(number), contents);
      if k == number {
        FlatMapSingles(BlobIn(k), AsBlob(number), (c: Bytes) => c, contents);
        assert Map((c: Bytes) => c, contents) == contents;
      } else {
        FlatMapNone(BlobIn(k), AsBlob(number), contents);
      }
    }
  }

  lemma RepeatedInts(number: nat, one: nat -> Bytes, values: seq<nat>)
    requires forall x :: x in values ==> one(x) == Integer(number, x)
    ensures EncodeAll(Map(AsInt(number), values)) == FlatMap(one, values)
    ensures forall k {:trigger Ints(Map(AsInt(number), values), k)} ::
              Ints(Map(AsInt(number), values), k) == if k == number then values else []
    ensures forall k {:trigger Blobs(Map(AsInt(number), values), k)} :: Blobs(Map(AsInt(number), values), k) == []
  {
    FlatMapMap(Encode, AsInt(number), one, values);
    forall k
      ensures Ints(Map(AsInt(number), values), k) == if k == number then values else []
      ensures Blobs(Map(AsInt(number), values), k) == []
    {
      FlatMapNone(BlobIn(k), AsInt(number), values);
      if k == number {
        FlatMapSingles(IntIn(k), AsInt(number), (v: nat) => v, values);
        assert Map((v: nat) => v, values) == values;
      } else {
        FlatMapNone(IntIn(k), AsInt(number), values);
      }
    }
  }

  lemma {:induction false} DecodeEachInverts<T>(decode: Bytes -> Option<T>, encode: T -> Bytes, xs: seq<T>)
    requires forall x :: x in xs ==> decode(encode(x)) == Some(x)
    ensures DecodeEach(decode, Map(encode, xs)) == Some(xs)
  {
    if xs != [] {
      assert xs[0] in xs && forall x :: x in xs[1..] ==> x in xs;
      DecodeEachInverts(decode, encode, xs[1..]);
      assert Map(encode, xs)[1..] == Map(encode, xs[1..]);
      assert xs == [xs[0]] + xs[1..];
    }
  }

  // ---------------------------------------------------------------- round trips

  lemma DimRoundTrip(d: Dim)
    ensures DecodeDim(DimBytes(d)) == Some(d)
  {
    var f := match d case Size(size) => IntField(1, size) case Symbol(symbol) => BlobField(2, symbol);
    EncodeOne(f);
    FieldsRoundTrip([f]);
    PickOne(f, 1);
    PickOne(f, 2);
  }

  lemma {:induction false} SamplesRoundTrip(samples: seq<Word>)
    ensures DecodeSamples(SampleBytes(samples)) == Some(samples)
  {
    if samples != [] {
      SamplesRoundTrip(samples[1..]);
      var bytes := SampleBytes(samples);
      assert bytes[..4] == samples[0] && bytes[4..] == SampleBytes(samples[1..]);
      assert samples == [samples[0]] + samples[1..];
    }
  }

  /** A message of two fields in sequence. */
  lemma Pair(f: Field, g: Field)
    ensures ParseAll(Encode(f) + Encode(g)) == Some([f, g])
    ensures forall k {:trigger Blobs([f, g], k)} :: Blobs([f, g], k) == BlobIn(k)(f) + BlobIn(k)(g)
    ensures forall k {:trigger Ints([f, g], k)} :: Ints([f, g], k) == IntIn(k)(f) + IntIn(k)(g)
  {
    assert [f] + [g] == [f, g];
    EncodeTwo([f], [g]);
    EncodeOne(f);
    EncodeOne(g);
    FieldsRoundTrip([f, g]);
    forall k
      ensures Blobs([f, g], k) == BlobIn(k)(f) + BlobIn(k)(g)
      ensures Ints([f, g], k) == IntIn(k)(f) + IntIn(k)(g)
    {
      PickAppend([f], [g], k);
      PickOne(f, k);
      PickOne(g, k);
    }
  }

  lemma Alone(f: Field)
    ensures ParseAll(Encode(f)) == Some([f])
    ensures forall k {:trigger Blobs([f], k)} :: Blobs([f], k) == BlobIn(k)(f)
    ensures forall k {:trigger Ints([f], k)} :: Ints([f], k) == IntIn(k)(f)
  {
    EncodeOne(f);
    FieldsRoundTrip([f]);
    forall k
      ensures Blobs([f], k) == BlobIn(k)(f) && Ints([f], k) == IntIn(k)(f)
    {
      PickOne(f, k);
    }
  }

  lemma ShapeRoundTrip(dims: seq<Dim>)
    ensures var shape := FlatMap((d: Dim) => Blob(1, DimBytes(d)), dims);
            && ParseAll(shape).Some?
            && DecodeEach(DecodeDim, Blobs(ParseAll(shape).value, 1)) == Some(dims)
  {
    var fields := Map(AsBlob(1), Map(DimBytes, dims));
    Repeated(1, DimBytes, (d: Dim) => Blob(1, DimBytes(d)), dims);
    FieldsRoundTrip(fields);
    forall d | d in dims
      ensures DecodeDim(DimBytes(d)) == Some(d)
    {
      DimRoundTrip(d);
    }
    DecodeEachInverts(DecodeDim, DimBytes, dims);
  }

  lemma ValueInfoRoundTrip(v: ValueInfo)
    ensures DecodeValueInfo(ValueInfoBytes(v)) == Some(v)
  {
    var shape := FlatMap((d: Dim) => Blob(1, DimBytes(d)), v.dims);
    var tensorType := Integer(1, v.kind) + Blob(2, shape);
    ShapeRoundTrip(v.dims);
    Pair(IntField(1, v.kind), BlobField(2, shape));
    Alone(BlobField(1, tensorType));
    Pair(BlobField(1, v.name), BlobField(2, Blob(1, tensorType)));
  }

  /** Joined field lists: the bytes join, and so does what picking finds. */
  lemma Joined(a: seq<Field>, b: seq<Field>)
    ensures EncodeAll(a + b) == EncodeAll(a) + EncodeAll(b)
    ensures forall k {:trigger Blobs(a + b, k)} :: Blobs(a + b, k) == Blobs(a, k) + Blobs(b, k)
    ensures forall k {:trigger Ints(a + b, k)} :: Ints(a + b, k) == Ints(a, k) + Ints(b, k)
  {
    EncodeTwo(a, b);
    forall k
      ensures Blobs(a + b, k) == Blobs(a, k) + Blobs(b, k) && Ints(a + b, k) == Ints(a, k) + Ints(b, k)
    {
      PickAppend(a, b, k);
    }
  }

  lemma OneField(f: Field)
    ensures EncodeAll([f]) == Encode(f)
    ensures forall k {:trigger Blobs([f], k)} :: Blobs([f], k) == BlobIn(k)(f)
    ensures forall k {:trigger Ints([f], k)} :: Ints([f], k) == IntIn(k)(f)
  {
    EncodeOne(f);
    Alone(f);
  }

  function TensorFields(t: Tensor): seq<Field> {
    Map(AsInt(1), t.dims) + [IntField(2, 1)] + [BlobField(8, t.name)] + [BlobField(9, SampleBytes(t.samples))]
  }

  lemma TensorAsFields(t: Tensor)
    ensures TensorBytes(t) == EncodeAll(TensorFields(t))
    ensures Ints(TensorFields(t), 1) == t.dims && Ints(TensorFields(t), 2) == [1]
    ensures Blobs(TensorFields(t), 8) == [t.name] && Blobs(TensorFields(t), 9) == [SampleBytes(t.samples)]
  {
    var dims := Map(AsInt(1), t.dims);
    var kind, name, data := IntField(2, 1), BlobField(8, t.name), BlobField(9, SampleBytes(t.samples));
    RepeatedInts(1, (d: nat) => Integer(1, d), t.dims);
    OneField(kind);
    OneField(name);
    OneField(data);
    Joined(dims, [kind]);
    Joined(dims + [kind], [name]);
    Joined(dims + [kind] + [name], [data]);
    assert Ints(TensorFields(t), 1) == t.dims + [] + [] + [];
    assert Ints(TensorFields(t), 2) == [] + [1] + [] + [];
    assert Blobs(TensorFields(t), 8) == [] + [] + [t.name] + [];
    assert Blobs(TensorFields(t), 9) == [] + [] + [] + [SampleBytes(t.samples)];
  }

  lemma TensorRoundTrip(t: Tensor)
    ensures DecodeTensor(TensorBytes(t)) == Some(t)
  {
    TensorAsFields(t);
    FieldsRoundTrip(TensorFields(t));
    SamplesRoundTrip(t.samples);
  }

  function NodeFields(n: Node): seq<Field> {
    Map(AsBlob(1), n.inputs) + [BlobField(2, n.output)] + [BlobField(4, n.operation)]
    + AttributeFields(n.attribute)
  }

  function AttributeFields(attribute: Option<Attribute>): seq<Field> {
    if attribute.Some? then [BlobField(5, AttributeBytes(attribute.value))] else []
  }

  lemma InputsAsFields(inputs: seq<Bytes>)
    ensures EncodeAll(Map(AsBlob(1), inputs)) == FlatMap((name: Bytes) => Blob(1, name), inputs)
    ensures forall k {:trigger Blobs(Map(AsBlob(1), inputs), k)} ::
              Blobs(Map(AsBlob(1), inputs), k) == if k == 1 then inputs else []
  {
    var same := (name: Bytes) => name;
    assert Map(same, inputs) == inputs;
    Repeated(1, same, (name: Bytes) => Blob(1, name), inputs);
  }

  lemma AttributeAsFields(attribute: Option<Attribute>)
    ensures EncodeAll(AttributeFields(attribute)) ==
            if attribute.Some? then Blob(5, AttributeBytes(attribute.value)) else []
    ensures forall k {:trigger Blobs(AttributeFields(attribute), k)} ::
              Blobs(AttributeFields(attribute), k) ==
              if attribute.Some? && k == 5 then [AttributeBytes(attribute.value)] else []
  {
    if attribute.Some? {
      OneField(BlobField(5, AttributeBytes(attribute.value)));
    }
  }

  lemma AttributeRoundTrip(a: Attribute)
    ensures DecodeAttribute(AttributeBytes(a)) == Some(a)
  {
    var name, value, kind := BlobField(1, a.name), IntField(3, a.value), IntField(20, a.kind);
    OneField(name);
    OneField(value);
    OneField(kind);
    Joined([name], [value]);
    Joined([name] + [value], [kind]);
    FieldsRoundTrip([name] + [value] + [kind]);
    assert AttributeBytes(a) == EncodeAll([name] + [value] + [kind]);
  }

  lemma NodeAsFields(n: Node)
    ensures NodeBytes(n) == EncodeAll(NodeFields(n))
    ensures Blobs(NodeFields(n), 1) == n.inputs && Blobs(NodeFields(n), 2) == [n.output]
    ensures Blobs(NodeFields(n), 4) == [n.operation]
    ensures Blobs(NodeFields(n), 5) == if n.attribute.Some? then [AttributeBytes(n.attribute.value)] else []
  {
    hide AttributeBytes, AttributeFields, Blobs, Ints, EncodeAll;
    var inputs, attribute := Map(AsBlob(1), n.inputs), AttributeFields(n.attribute);
    var output, operation := BlobField(2, n.output), BlobField(4, n.operation);
    InputsAsFields(n.inputs);
    OneField(output);
    OneField(operation);
    AttributeAsFields(n.attribute);
    Joined(inputs, [output]);
    Joined(inputs + [output], [operation]);
    Joined(inputs + [output] + [operation], attribute);
    assert Blobs(NodeFields(n), 1) == n.inputs + [] + [] + [];
    assert Blobs(NodeFields(n), 2) == [] + [n.output] + [] + [];
    assert Blobs(NodeFields(n), 4) == [] + [] + [n.operation] + [];
    assert Blobs(NodeFields(n), 5) == [] + [] + [] + Blobs(attribute, 5);
  }

  lemma NodeRoundTrip(n: Node)
    ensures DecodeNode(NodeBytes(n)) == Some(n)
  {
    hide AttributeBytes, DecodeAttribute, NodeBytes, NodeFields;
    NodeAsFields(n);
    FieldsRoundTrip(NodeFields(n));
    if n.attribute.Some? {
      AttributeRoundTrip(n.attribute.value);
    }
  }

  lemma AllRoundTrip(g: Graph)
    ensures DecodeEach(DecodeNode, Map(NodeBytes, g.nodes)) == Some(g.nodes)
    ensures DecodeEach(DecodeTensor, Map(TensorBytes, g.initializers)) == Some(g.initializers)
    ensures DecodeEach(DecodeValueInfo, Map(ValueInfoBytes, g.inputs)) == Some(g.inputs)
    ensures DecodeEach(DecodeValueInfo, Map(ValueInfoBytes, g.outputs)) == Some(g.outputs)
  {
    forall n: Node { NodeRoundTrip(n); }
    forall t: Tensor { TensorRoundTrip(t); }
    forall v: ValueInfo { ValueInfoRoundTrip(v); }
    DecodeEachInverts(DecodeNode, NodeBytes, g.nodes);
    DecodeEachInverts(DecodeTensor, TensorBytes, g.initializers);
    DecodeEachInverts(DecodeValueInfo, ValueInfoBytes, g.inputs);
    DecodeEachInverts(DecodeValueInfo, ValueInfoBytes, g.outputs);
  }

  function GraphFields(g: Graph): seq<Field> {
    Map(AsBlob(1), Map(NodeBytes, g.nodes)) + [BlobField(2, g.name)]
    + Map(AsBlob(5), Map(TensorBytes, g.initializers))
    + Map(AsBlob(11), Map(ValueInfoBytes, g.inputs))
    + Map(AsBlob(12), Map(ValueInfoBytes, g.outputs))
  }

  lemma GraphPicks(g: Graph)
    ensures Blobs(GraphFields(g), 1) == Map(NodeBytes, g.nodes) && Blobs(GraphFields(g), 2) == [g.name]
    ensures Blobs(GraphFields(g), 5) == Map(TensorBytes, g.initializers)
    ensures Blobs(GraphFields(g), 11) == Map(ValueInfoBytes, g.inputs)
    ensures Blobs(GraphFields(g), 12) == Map(ValueInfoBytes, g.outputs)
  {
    var nodes, tensors := Map(NodeBytes, g.nodes), Map(TensorBytes, g.initializers);
    var inputs, outputs := Map(ValueInfoBytes, g.inputs), Map(ValueInfoBytes, g.outputs);
    FivePicks(1, nodes, 2, g.name, 5, tensors, 11, inputs, 12, outputs);
  }

  lemma BlobsPick(number: nat, contents: seq<Bytes>)
    ensures forall k {:trigger Blobs(Map(AsBlob(number), contents), k)} ::
              Blobs(Map(AsBlob(number), contents), k) == if k == number then contents else []
  {
    var same := (c: Bytes) => c;
    assert Map(same, contents) == contents;
    Repeated(number, same, (c: Bytes) => Blob(number, c), contents);
  }

  /** Four repeated records around a single one, under five different numbers. */
  lemma FivePicks(p: nat, a: seq<Bytes>, q: nat, b: Bytes, r: nat, c: seq<Bytes>, s: nat, d: seq<Bytes>,
                  t: nat, e: seq<Bytes>)
    requires p != q && p != r && p != s && p != t && q != r && q != s && q != t && r != s && r != t && s != t
    ensures var fields :=
              Map(AsBlob(p), a) + [BlobField(q, b)] + Map(AsBlob(r), c) + Map(AsBlob(s), d) + Map(AsBlob(t), e);
            && Blobs(fields, p) == a && Blobs(fields, q) == [b] && Blobs(fields, r) == c
            && Blobs(fields, s) == d && Blobs(fields, t) == e
  {
    hide Blobs, Ints, EncodeAll, AsBlob;
    var fields := Map(AsBlob(p), a) + [BlobField(q, b)] + Map(AsBlob(r), c) + Map(AsBlob(s), d) + Map(AsBlob(t), e);
    BlobsPick(p, a);
    OneField(BlobField(q, b));
    BlobsPick(r, c);
    BlobsPick(s, d);
    BlobsPick(t, e);
    FiveJoined(Map(AsBlob(p), a), [BlobField(q, b)], Map(AsBlob(r), c), Map(AsBlob(s), d), Map(AsBlob(t), e));
    assert Blobs(fields, p) == a + [] + [] + [] + [];
    assert Blobs(fields, q) == [] + [b] + [] + [] + [];
    assert Blobs(fields, r) == [] + [] + c + [] + [];
    assert Blobs(fields, s) == [] + [] + [] + d + [];
    assert Blobs(fields, t) == [] + [] + [] + [] + e;
  }

  lemma GraphAsFields(g: Graph)
    ensures GraphBytes(g) == EncodeAll(GraphFields(g))
  {
    Repeated(1, NodeBytes, (n: Node) => Blob(1, NodeBytes(n)), g.nodes);
    OneField(BlobField(2, g.name));
    Repeated(5, TensorBytes, (t: Tensor) => Blob(5, TensorBytes(t)), g.initializers);
    Repeated(11, ValueInfoBytes, (v: ValueInfo) => Blob(11, ValueInfoBytes(v)), g.inputs);
    Repeated(12, ValueInfoBytes, (v: ValueInfo) => Blob(12, ValueInfoBytes(v)), g.outputs);
    FiveJoined(Map(AsBlob(1), Map(NodeBytes, g.nodes)), [BlobField(2, g.name)],
               Map(AsBlob(5), Map(TensorBytes, g.initializers)), Map(AsBlob(11), Map(ValueInfoBytes, g.inputs)),
               Map(AsBlob(12), Map(ValueInfoBytes, g.outputs)));
  }

  lemma FiveJoined(a: seq<Field>, b: seq<Field>, c: seq<Field>, d: seq<Field>, e: seq<Field>)
    ensures EncodeAll(a + b + c + d + e) == EncodeAll(a) + EncodeAll(b) + EncodeAll(c) + EncodeAll(d) + EncodeAll(e)
    ensures forall k {:trigger Blobs(a + b + c + d + e, k)} ::
              Blobs(a + b + c + d + e, k) == Blobs(a, k) + Blobs(b, k) + Blobs(c, k) + Blobs(d, k) + Blobs(e, k)
  {
    Joined(a, b);
    Joined(a + b, c);
    Joined(a + b + c, d);
    Joined(a + b + c + d, e);
  }

  lemma GraphRoundTrip(g: Graph)
    ensures DecodeGraph(GraphBytes(g)) == Some(g)
  {
    GraphAsFields(g);
    GraphPicks(g);
    FieldsRoundTrip(GraphFields(g));
    AllRoundTrip(g);
  }

  /** Every field of a model is read back from its bytes, through all levels of nesting. */
  lemma ModelRoundTrip(m: Model)
    ensures DecodeModel(ModelBytes(m)) == Some(m)
  {
    var version, producer := IntField(1, m.irVersion), BlobField(2, m.producer);
    var graph, opset := BlobField(7, GraphBytes(m.graph)), BlobField(8, Integer(2, m.opset));
    OneField(version);
    OneField(producer);
    OneField(graph);
    OneField(opset);
    Joined([version], [producer]);
    Joined([version] + [producer], [graph]);
    Joined([version] + [producer] + [graph], [opset]);
    var fields := [version] + [producer] + [graph] + [opset];
    FieldsRoundTrip(fields);
    assert ModelBytes(m) == EncodeAll(fields);
    Alone(IntField(2, m.opset));
    GraphRoundTrip(m.graph);
  }

  // ---------------------------------------------------------------- the fixture itself

  /** The bytes of a name; the fixture's names are all ASCII. */
  function Ascii(name: string): Bytes {
    seq(|name|, i requires 0 <= i < |name| => if name[i] < 128 as char then name[i] as int else 63)
  }

  const ONE_EIGHTH: Word := [0, 0, 0, 62]

  /** The conversion to type 1, a 32-bit float, as an attribute of kind 2, an integer. */
  const CAST_TO_FLOAT := Attribute(Ascii("to"), 1, 2)

  /** The graph that returns 128 samples of base + 0.125 * sid. */
  function Fixture(base: Word): Model {
    var nodes := [
      Node(Ascii("Cast"), [Ascii("sid")], Ascii("speaker"), Some(CAST_TO_FLOAT)),
      Node(Ascii("Mul"), [Ascii("speaker"), Ascii("factor")], Ascii("scaled"), None),
      Node(Ascii("Add"), [Ascii("scaled"), Ascii("base")], Ascii("audio"), None)];
    var initializers := [
      Tensor(Ascii("factor"), [1], [ONE_EIGHTH]),
      Tensor(Ascii("base"), [1, 1, 128], seq(128, i => base))];
    var inputs := [
      ValueInfo(Ascii("input"), 7, [Size(1), Symbol(Ascii("n"))]),
      ValueInfo(Ascii("input_lengths"), 7, [Size(1)]),
      ValueInfo(Ascii("scales"), 1, [Size(3)]),
      ValueInfo(Ascii("sid"), 7, [Size(1)])];
    var outputs := [ValueInfo(Ascii("audio"), 1, [Size(1), Size(1), Size(128)])];
    Model(8, Ascii("omnivox-test-fixture"),
          Graph(nodes, Ascii("omnivox-speaker-fixture"), initializers, inputs, outputs), 13)
  }

  /** Fixtures for different base samples have different bytes. */
  lemma FixturesDiffer(a: Word, b: Word)
    ensures ModelBytes(Fixture(a)) == ModelBytes(Fixture(b)) ==> a == b
  {
    ModelRoundTrip(Fixture(a));
    ModelRoundTrip(Fixture(b));
    if ModelBytes(Fixture(a)) == ModelBytes(Fixture(b)) {
      assert Fixture(a).graph.initializers[1].samples[0] == a;
      assert Fixture(b).graph.initializers[1].samples[0] == b;
    }
  }
}
