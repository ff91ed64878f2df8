/**
 What the graphs of tools/generate_piper_speaker_fixture.py compute: Cast, Mul and Add as the ONNX operator
 schemas define them, over exact numbers where a runtime rounds to 32-bit floats.
 */
module OnnxEvaluation {
  import opened Binary
  import opened OnnxFixture
  import opened Sequences
  import opened Wrappers

  // ---------------------------------------------------------------- 32-bit floats

  function PowerOfTwo(exponent: int): (r: real)
    ensures r > 0.0
    decreases if exponent < 0 then -exponent else exponent
  {
    if exponent == 0 then 1.0
    else if exponent > 0 then 2.0 * PowerOfTwo(exponent - 1)
    else PowerOfTwo(exponent + 1) / 2.0
  }

  function Exponent(w: Word): nat {
    LittleEndian(w) / 0x80_0000 % 256
  }

  predicate Finite(w: Word) {
    Exponent(w) < 255
  }

  /** The number a finite word stands for: sign, exponent and fraction, lowest byte first. */
  function FloatValue(w: Word): real
    requires Finite(w)
  {
    var fraction := (LittleEndian(w) % 0x80_0000) as real / 0x80_0000 as real;
    var size := if Exponent(w) == 0 then fraction * PowerOfTwo(-126)
                else (1.0 + fraction) * PowerOfTwo(Exponent(w) - 127);
    if LittleEndian(w) >= 0x8000_0000 then -size else size
  }

  // ---------------------------------------------------------------- running a graph

  /** The elements of a tensor, in order. */
  type Elements = seq<real>

  type Environment = map<Bytes, Elements>

  /** Element by element; a single element goes with every element of the other side. */
  function Broadcast(f: (real, real) -> real, a: Elements, b: Elements): Option<Elements> {
    if |a| == |b| then Some(seq(|a|, i requires 0 <= i < |a| => f(a[i], b[i])))
    else if |a| == 1 then Some(seq(|b|, i requires 0 <= i < |b| => f(a[0], b[i])))
    else if |b| == 1 then Some(seq(|a|, i requires 0 <= i < |a| => f(a[i], b[0])))
    else None
  }

  function Times(x: real, y: real): real {
    x * y
  }

  function Plus(x: real, y: real): real {
    x + y
  }

  function RunNode(n: Node, env: Environment): Option<Environment> {
    if |n.inputs| == 1 && n.inputs[0] in env && n.operation == Ascii("Cast") && n.attribute == Some(CAST_TO_FLOAT) then
      Some(env[n.output := env[n.inputs[0]]])
    else if |n.inputs| != 2 || n.inputs[0] !in env || n.inputs[1] !in env then None
    else
      var (a, b) := (env[n.inputs[0]], env[n.inputs[1]]);
      if n.operation == Ascii("Mul") then
        var elements :- Broadcast(Times, a, b);
        Some(env[n.output := elements])
      else if n.operation == Ascii("Add") then
        var elements :- Broadcast(Plus, a, b);
        Some(env[n.output := elements])
      else None
  }

  function RunNodes(nodes: seq<Node>, env: Environment): Option<Environment> {
    if nodes == [] then Some(env)
    else
      var next :- RunNode(nodes[0], env);
      RunNodes(nodes[1..], next)
  }

  predicate AllFinite(samples: seq<Word>) {
    forall w :: w in samples ==> Finite(w)
  }

  function ElementsOf(samples: seq<Word>): Elements
    requires AllFinite(samples)
  {
    seq(|samples|, i requires 0 <= i < |samples| => FloatValue(samples[i]))
  }

  /** The graph's constants, over the inputs of a run. */
  function WithConstants(initializers: seq<Tensor>, inputs: Environment): Option<Environment> {
    if initializers == [] then Some(inputs)
    else if !AllFinite(initializers[0].samples) then None
    else WithConstants(initializers[1..], inputs[initializers[0].name := ElementsOf(initializers[0].samples)])
  }

  /** What a run of the model gives for its output `name`. */
  function Output(m: Model, inputs: Environment, name: Bytes): Option<Elements> {
    var constants :- WithConstants(m.graph.initializers, inputs);
    var env :- RunNodes(m.graph.nodes, constants);
    if name in env then Some(env[name]) else None
  }

  // ---------------------------------------------------------------- the fixture

  lemma OneEighth()
    ensures Finite(ONE_EIGHTH) && FloatValue(ONE_EIGHTH) == 0.125
  {
    LowestFirst(0, 0, 0, 62);
    assert LittleEndian(ONE_EIGHTH) == 62 * 0x100_0000 && Exponent(ONE_EIGHTH) == 124;
    assert PowerOfTwo(-1) == 0.5 && PowerOfTwo(-2) == 0.25 && PowerOfTwo(-3) == 0.125;
  }

  /** The names of the graph are different names. */
  lemma NamesDiffer()
    ensures |Ascii("sid")| == 3 && |Ascii("base")| == 4 && |Ascii("audio")| == 5
    ensures |Ascii("factor")| == |Ascii("scaled")| == 6 && |Ascii("speaker")| == 7
    ensures Ascii("factor") != Ascii("scaled")
    ensures Ascii("Cast") != Ascii("Mul") && Ascii("Mul") != Ascii("Add")
  {
    assert Ascii("factor")[0] == 102 && Ascii("scaled")[0] == 115;
    assert Ascii("Mul")[0] == 77 && Ascii("Add")[0] == 65;
    assert |Ascii("Cast")| == 4 && |Ascii("Mul")| == 3;
  }

  lemma Constants(base: Word, inputs: Environment)
    requires Finite(base)
    ensures WithConstants(Fixture(base).graph.initializers, inputs)
         == Some(inputs[Ascii("factor") := [0.125]][Ascii("base") := seq(128, _ => FloatValue(base))])
  {
    hide Ascii, FloatValue, Finite;
    OneEighth();
    var initializers := Fixture(base).graph.initializers;
    var factor, level := initializers[0], initializers[1];
    assert ElementsOf(factor.samples) == [0.125];
    assert ElementsOf(level.samples) == seq(128, _ => FloatValue(base));
    var inner := inputs[Ascii("factor") := [0.125]];
    assert initializers == [factor, level] && [factor, level][1..] == [level] && [level][1..] == [];
    assert WithConstants([level], inner) == WithConstants([], inner[level.name := ElementsOf(level.samples)]);
    assert WithConstants([factor, level], inputs) == WithConstants([level], inner);
  }

  lemma RunMore(n: Node, rest: seq<Node>, env: Environment)
    requires RunNode(n, env).Some?
    ensures RunNodes([n] + rest, env) == RunNodes(rest, RunNode(n, env).value)
  {
    assert ([n] + rest)[1..] == rest;
  }

  lemma Multiplied(x: Bytes, y: Bytes, out: Bytes, env: Environment, a: real, b: real)
    requires x in env && y in env && env[x] == [a] && env[y] == [b]
    ensures RunNode(Node(Ascii("Mul"), [x, y], out, None), env) == Some(env[out := [a * b]])
  {
    var product := Broadcast(Times, [a], [b]).value;
    assert |product| == 1 && product[0] == Times([a][0], [b][0]) == a * b;
    assert product == [a * b];
  }

  lemma AddedToAll(x: Bytes, y: Bytes, out: Bytes, env: Environment, a: real, b: real)
    requires x in env && y in env && env[x] == [a] && env[y] == seq(128, _ => b)
    ensures RunNode(Node(Ascii("Add"), [x, y], out, None), env) == Some(env[out := seq(128, _ => a + b)])
  {
    assert Ascii("Add") != Ascii("Mul") by { NamesDiffer(); }
    assert Broadcast(Plus, [a], env[y]).value == seq(128, _ => a + b);
  }

  /** A run for speaker `sid` gives 128 samples of base + 0.125 * sid. */
  lemma FixtureComputes(base: Word, sid: int)
    requires Finite(base)
    ensures Output(Fixture(base), map[Ascii("sid") := [sid as real]], Ascii("audio"))
         == Some(seq(128, _ => FloatValue(base) + 0.125 * sid as real))
  {
    hide Ascii, FloatValue, Finite;
    var inputs := map[Ascii("sid") := [sid as real]];
    var level := FloatValue(base);
    var env := inputs[Ascii("factor") := [0.125]][Ascii("base") := seq(128, _ => level)];
    var nodes := Fixture(base).graph.nodes;
    NamesDiffer();
    Constants(base, inputs);
    var cast := env[Ascii("speaker") := [sid as real]];
    assert RunNode(nodes[0], env) == Some(cast);
    Multiplied(Ascii("speaker"), Ascii("factor"), Ascii("scaled"), cast, sid as real, 0.125);
    var scaled := cast[Ascii("scaled") := [sid as real * 0.125]];
    AddedToAll(Ascii("scaled"), Ascii("base"), Ascii("audio"), scaled, sid as real * 0.125, level);
    RunMore(nodes[0], [nodes[1], nodes[2]], env);
    RunMore(nodes[1], [nodes[2]], cast);
    RunMore(nodes[2], [], scaled);
    assert nodes == [nodes[0]] + [nodes[1], nodes[2]] && [nodes[1], nodes[2]] == [nodes[1]] + [nodes[2]];
    assert [nodes[2]] == [nodes[2]] + [];
    assert seq(128, _ => sid as real * 0.125 + level) == seq(128, _ => level + 0.125 * sid as real);
  }

  function Product(dims: seq<nat>): nat {
    if dims == [] then 1 else dims[0] * Product(dims[1..])
  }

  /** Every constant has as many samples as its dimensions say, and so has the declared output. */
  lemma ShapesFit(base: Word)
    ensures forall t :: t in Fixture(base).graph.initializers ==> |t.samples| == Product(t.dims)
    ensures Fixture(base).graph.outputs == [ValueInfo(Ascii("audio"), 1, [Size(1), Size(1), Size(128)])]
  {
    assert Product([128]) == 128 * Product([]) && [1][1..] == [] && [128][1..] == [];
    assert [1, 1, 128][1..] == [1, 128] && [1, 128][1..] == [128];
  }

  /** A reader of the fixture's bytes gets the graph that computes this. */
  lemma BytesCompute(base: Word, sid: int)
    requires Finite(base)
    ensures DecodeModel(ModelBytes(Fixture(base))).Some?
    ensures Output(DecodeModel(ModelBytes(Fixture(base))).value, map[Ascii("sid") := [sid as real]], Ascii("audio"))
         == Some(seq(128, _ => FloatValue(base) + 0.125 * sid as real))
  {
    ModelRoundTrip(Fixture(base));
    FixtureComputes(base, sid);
  }
}
