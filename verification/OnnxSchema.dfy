/**
 The fields of the messages of tools/generate_piper_speaker_fixture.py, with the numbers that the ONNX schema
 (onnx.proto: AttributeProto, ValueInfoProto, NodeProto, ModelProto, GraphProto, TensorProto, TypeProto) gives them.
 */
module OnnxSchema {
  import opened Binary
  import opened OnnxFixture
  import opened Protobuf
  import opened Sequences
  import opened Wrappers

  /** A dimension is a size in field 1 or a symbol in field 2. */
  lemma DimSchema(size: nat, symbol: Bytes)
    ensures ParseAll(DimBytes(Size(size))) == Some([IntField(1, size)])
    ensures ParseAll(DimBytes(Symbol(symbol))) == Some([BlobField(2, symbol)])
  {
    Alone(IntField(1, size));
    Alone(BlobField(2, symbol));
  }

  /** Name, then the type: a tensor type in field 1, with the element type and the shape's dimensions. */
  lemma ValueInfoSchema(v: ValueInfo)
    ensures exists typeBytes, tensorType, shape ::
              && ParseAll(ValueInfoBytes(v)) == Some([BlobField(1, v.name), BlobField(2, typeBytes)])
              && ParseAll(typeBytes) == Some([BlobField(1, tensorType)])
              && ParseAll(tensorType) == Some([IntField(1, v.kind), BlobField(2, shape)])
              && ParseAll(shape) == Some(Map(AsBlob(1), Map(DimBytes, v.dims)))
  {
    var shape := FlatMap((d: Dim) => Blob(1, DimBytes(d)), v.dims);
    var tensorType := Integer(1, v.kind) + Blob(2, shape);
    hide ParseAll, FlatMap, Blob, Integer;
    Repeated(1, DimBytes, (d: Dim) => Blob(1, DimBytes(d)), v.dims);
    FieldsRoundTrip(Map(AsBlob(1), Map(DimBytes, v.dims)));
    Pair(IntField(1, v.kind), BlobField(2, shape));
    Alone(BlobField(1, tensorType));
    Pair(BlobField(1, v.name), BlobField(2, Blob(1, tensorType)));
  }

  lemma TensorSchema(t: Tensor)
    ensures ParseAll(TensorBytes(t)) ==
            Some(Map(AsInt(1), t.dims) + [IntField(2, 1)] + [BlobField(8, t.name)]
                 + [BlobField(9, SampleBytes(t.samples))])
  {
    hide ParseAll, TensorBytes;
    TensorAsFields(t);
    FieldsRoundTrip(TensorFields(t));
  }

  lemma AttributeSchema(a: Attribute)
    ensures ParseAll(AttributeBytes(a)) ==
            Some([BlobField(1, a.name)] + [IntField(3, a.value)] + [IntField(20, a.kind)])
  {
    hide ParseAll;
    var name, value, kind := BlobField(1, a.name), IntField(3, a.value), IntField(20, a.kind);
    OneField(name);
    OneField(value);
    OneField(kind);
    Joined([name], [value]);
    Joined([name] + [value], [kind]);
    FieldsRoundTrip([name] + [value] + [kind]);
  }

  lemma NodeSchema(n: Node)
    ensures ParseAll(NodeBytes(n)) ==
            Some(Map(AsBlob(1), n.inputs) + [BlobField(2, n.output)] + [BlobField(4, n.operation)]
                 + if n.attribute.Some? then [BlobField(5, AttributeBytes(n.attribute.value))] else [])
  {
    hide ParseAll, NodeBytes;
    NodeAsFields(n);
    FieldsRoundTrip(NodeFields(n));
  }

  lemma GraphSchema(g: Graph)
    ensures ParseAll(GraphBytes(g)) ==
            Some(Map(AsBlob(1), Map(NodeBytes, g.nodes)) + [BlobField(2, g.name)]
                 + Map(AsBlob(5), Map(TensorBytes, g.initializers))
                 + Map(AsBlob(11), Map(ValueInfoBytes, g.inputs)) + Map(AsBlob(12), Map(ValueInfoBytes, g.outputs)))
  {
    hide ParseAll, GraphBytes;
    GraphAsFields(g);
    FieldsRoundTrip(GraphFields(g));
  }

  lemma ModelSchema(m: Model)
    ensures ParseAll(ModelBytes(m)) ==
            Some([IntField(1, m.irVersion)] + [BlobField(2, m.producer)] + [BlobField(7, GraphBytes(m.graph))]
                 + [BlobField(8, Integer(2, m.opset))])
    ensures ParseAll(Integer(2, m.opset)) == Some([IntField(2, m.opset)])
  {
    hide ParseAll, GraphBytes;
    var version, producer := IntField(1, m.irVersion), BlobField(2, m.producer);
    var graph, opset := BlobField(7, GraphBytes(m.graph)), BlobField(8, Integer(2, m.opset));
    OneField(version);
    OneField(producer);
    OneField(graph);
    OneField(opset);
    Joined([version], [producer]);
    Joined([version] + [producer], [graph]);
    Joined([version] + [producer] + [graph], [opset]);
    FieldsRoundTrip([version] + [producer] + [graph] + [opset]);
    Alone(IntField(2, m.opset));
  }
}
