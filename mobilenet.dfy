/** The shape bookkeeping of MobileNetV2 in utils/get_model_unlearn.py: the
    InvertedResidual constructor's stride check, its residual-connection rule
    and convolution stack, and the constructor loop that expands the `cfgs`
    table into the feature list. Layers are descriptors; no tensors. */
module MobileNet {
  import opened Base

  /** A convolution followed by batch norm (and ReLU6 where the source has
      one): input and output channels, kernel size, stride and groups. */
  datatype Conv = Conv(inCh: nat, outCh: nat, kernel: nat, stride: int, groups: nat)

  /** The fields an InvertedResidual block is left with. */
  datatype InvertedResidual = InvertedResidual(
    inp: nat, oup: nat, stride: int, expandRatio: nat,
    hiddenDim: nat, useResConnect: bool, conv: seq<Conv>)

  /** `assert stride in [1, 2]` failing. */
  datatype BlockError = StrideNotOneOrTwo

  /** The convolutions form a chain from `input` channels to `output` channels. */
  predicate ConvChain(convs: seq<Conv>, input: nat, output: nat)
  {
    && |convs| > 0
    && convs[0].inCh == input
    && convs[|convs| - 1].outCh == output
    && forall i :: 0 <= i < |convs| - 1 ==> convs[i + 1].inCh == convs[i].outCh
  }

  /** `InvertedResidual(inp, oup, stride, expand_ratio)`. The expansion
      ratios of the table are integers, so `round(inp * expand_ratio)` is
      the exact product. */
  function NewInvertedResidual(inp: nat, oup: nat, stride: int, expandRatio: nat): (r: Result<InvertedResidual, BlockError>)
    ensures r.Err? <==> stride != 1 && stride != 2
    ensures r.Ok? ==> r.value.inp == inp && r.value.oup == oup && r.value.stride == stride
    ensures r.Ok? ==> r.value.expandRatio == expandRatio
    ensures r.Ok? ==> (r.value.useResConnect <==> stride == 1 && inp == oup)
    ensures r.Ok? ==> ConvChain(r.value.conv, inp, oup)
    ensures r.Ok? ==> forall c :: c in r.value.conv ==> c.stride == 1 || c.stride == stride
    ensures r.Ok? && r.value.useResConnect ==> forall c :: c in r.value.conv ==> c.stride == 1
  {
    if stride != 1 && stride != 2 then Err(StrideNotOneOrTwo)
    else
      var hidden := inp * expandRatio;
      var depthwise := Conv(hidden, hidden, 3, stride, hidden);
      var project := Conv(hidden, oup, 1, 1, 1);
      var conv :=
        if expandRatio == 1 then [depthwise, project]
        else [Conv(inp, hidden, 1, 1, 1), depthwise, project];
      Ok(InvertedResidual(inp, oup, stride, expandRatio, hidden, stride == 1 && inp == oup, conv))
  }

  /** A row `[t, c, n, s]` of `self.cfgs`. */
  datatype Cfg = Cfg(t: nat, c: nat, n: nat, s: int)

  /** `self.cfgs` as the constructor sets it. */
  const DefaultCfgs: seq<Cfg> := [
    Cfg(1, 16, 1, 1),
    Cfg(6, 24, 2, 2),
    Cfg(6, 32, 3, 2),
    Cfg(6, 64, 4, 2),
    Cfg(6, 96, 3, 1),
    Cfg(6, 160, 3, 2),
    Cfg(6, 320, 1, 1)
  ]

  /** A row builds its blocks without failing the stride assertion: only
      its first block takes the row's stride, and a row with n = 0 builds none. */
  predicate RowOk(cfg: Cfg)
  {
    cfg.n > 0 ==> cfg.s == 1 || cfg.s == 2
  }

  /** Every row's stride passes the InvertedResidual check. */
  predicate StridesOk(cfgs: seq<Cfg>)
  {
    forall i :: 0 <= i < |cfgs| ==> RowOk(cfgs[i])
  }

  /** The i-th block a row `[t, c, n, s]` contributes when `input_channel`
      was `input` on entry to the row. */
  function GroupBlock(cfg: Cfg, input: nat, i: nat): (b: InvertedResidual)
    requires cfg.s == 1 || cfg.s == 2
    ensures b.oup == cfg.c && b.expandRatio == cfg.t
    ensures b.stride == (if i == 0 then cfg.s else 1)
    ensures b.inp == (if i == 0 then input else cfg.c)
  {
    NewInvertedResidual(if i == 0 then input else cfg.c, cfg.c, if i == 0 then cfg.s else 1, cfg.t).value
  }

  /** All blocks one row contributes: only the first takes the row's stride. */
  function GroupBlocks(cfg: Cfg, input: nat): (r: seq<InvertedResidual>)
    requires RowOk(cfg)
    ensures |r| == cfg.n
    ensures forall i :: 0 <= i < |r| ==> r[i] == GroupBlock(cfg, input, i)
  {
    seq(cfg.n, i requires 0 <= i < cfg.n => GroupBlock(cfg, input, i))
  }

  /** `input_channel` after the rows `cfgs` have been expanded from `input`. */
  function ChannelAfter(cfgs: seq<Cfg>, input: nat): (ch: nat)
    ensures ch == input || exists j :: 0 <= j < |cfgs| && cfgs[j].n > 0 && ch == cfgs[j].c
    ensures (forall j :: 0 <= j < |cfgs| ==> cfgs[j].n == 0) ==> ch == input
    decreases |cfgs|
  {
    if cfgs == [] then input
    else
      var init := cfgs[..|cfgs| - 1];
      var last := cfgs[|cfgs| - 1];
      if last.n > 0 then last.c
      else
        var ch := ChannelAfter(init, input);
        assert forall j :: 0 <= j < |init| ==> init[j] == cfgs[j];
        ch
  }

  /** All inverted residual blocks the rows `cfgs` contribute, in order. */
  function Blocks(cfgs: seq<Cfg>, input: nat): (bs: seq<InvertedResidual>)
    requires StridesOk(cfgs)
    decreases |cfgs|
  {
    if cfgs == [] then []
    else
      var init := cfgs[..|cfgs| - 1];
      Blocks(init, input) + GroupBlocks(cfgs[|cfgs| - 1], ChannelAfter(init, input))
  }

  /** Total number of repetitions `n` over the rows. */
  function TotalRepeats(cfgs: seq<Cfg>): (total: nat)
    decreases |cfgs|
  {
    if cfgs == [] then 0 else TotalRepeats(cfgs[..|cfgs| - 1]) + cfgs[|cfgs| - 1].n
  }

  /** A layer of `self.features`. */
  datatype FeatureLayer =
    | ConvBn(inCh: nat, outCh: nat, stride: int)
    | Block(block: InvertedResidual)
    | Conv1x1Bn(inCh: nat, outCh: nat)

  function InOf(l: FeatureLayer): (ch: nat)
  {
    match l
    case ConvBn(i, _, _) => i
    case Block(b) => b.inp
    case Conv1x1Bn(i, _) => i
  }

  function OutOf(l: FeatureLayer): (ch: nat)
  {
    match l
    case ConvBn(_, o, _) => o
    case Block(b) => b.oup
    case Conv1x1Bn(_, o) => o
  }

  /** Each layer consumes exactly the channels the previous one produces. */
  predicate LayersChained(layers: seq<FeatureLayer>)
  {
    forall i :: 0 <= i < |layers| - 1 ==> InOf(layers[i + 1]) == OutOf(layers[i])
  }

  function AsLayers(bs: seq<InvertedResidual>): (r: seq<FeatureLayer>)
  {
    seq(|bs|, i requires 0 <= i < |bs| => Block(bs[i]))
  }

  lemma AsLayersAppend(bs: seq<InvertedResidual>, b: InvertedResidual)
    ensures AsLayers(bs + [b]) == AsLayers(bs) + [Block(b)]
  {
  }

  lemma AsLayersConcat(a: seq<InvertedResidual>, b: seq<InvertedResidual>)
    ensures AsLayers(a + b) == AsLayers(a) + AsLayers(b)
  {
  }

  /** The stem width `int(16 * expand)` and last width of the head with `expand=1.0`. */
  const StemWidth: nat := 16
  const LastWidth: nat := 1280

  /** `self.features` for an input with `inChannels` channels. */
  function Features(inChannels: nat, cfgs: seq<Cfg>): (layers: seq<FeatureLayer>)
    requires StridesOk(cfgs)
  {
    [ConvBn(inChannels, StemWidth, 2)] + AsLayers(Blocks(cfgs, StemWidth))
      + [Conv1x1Bn(ChannelAfter(cfgs, StemWidth), LastWidth)]
  }

  lemma {:induction false} BlocksCount(cfgs: seq<Cfg>, input: nat)
    requires StridesOk(cfgs)
    ensures |Blocks(cfgs, input)| == TotalRepeats(cfgs)
    decreases |cfgs|
  {
    if cfgs != [] {
      BlocksCount(cfgs[..|cfgs| - 1], input);
    }
  }

  /** The blocks thread `input_channel`: the first block reads `input`, each
      block reads what the previous one writes, and the last one writes the
      channel count the head is built with. */
  lemma {:induction false} BlocksChained(cfgs: seq<Cfg>, input: nat)
    requires StridesOk(cfgs)
    ensures var bs := Blocks(cfgs, input);
      && (bs == [] ==> ChannelAfter(cfgs, input) == input)
      && (bs != [] ==> bs[0].inp == input && bs[|bs| - 1].oup == ChannelAfter(cfgs, input))
      && forall i :: 0 <= i < |bs| - 1 ==> bs[i + 1].inp == bs[i].oup
    decreases |cfgs|
  {
    if cfgs != [] {
      var init := cfgs[..|cfgs| - 1];
      var last := cfgs[|cfgs| - 1];
      BlocksChained(init, input);
      var a := Blocks(init, input);
      var g := GroupBlocks(last, ChannelAfter(init, input));
      var bs := Blocks(cfgs, input);
      assert bs == a + g;
      forall i | 0 <= i < |bs| - 1
        ensures bs[i + 1].inp == bs[i].oup
      {
        if i + 1 < |a| {
          assert bs[i] == a[i] && bs[i + 1] == a[i + 1];
        } else if i + 1 == |a| {
          assert bs[i] == a[i] && bs[i + 1] == g[0];
        } else {
          assert bs[i] == g[i - |a|] && bs[i + 1] == g[i + 1 - |a|];
        }
      }
    }
  }

  /** The whole feature list is one chain of channel counts. */
  lemma FeaturesChained(inChannels: nat, cfgs: seq<Cfg>)
    requires StridesOk(cfgs)
    ensures |Features(inChannels, cfgs)| == TotalRepeats(cfgs) + 2
    ensures LayersChained(Features(inChannels, cfgs))
  {
    BlocksCount(cfgs, StemWidth);
    BlocksChained(cfgs, StemWidth);
    var bs := Blocks(cfgs, StemWidth);
    var f := Features(inChannels, cfgs);
    forall i | 0 <= i < |f| - 1
      ensures InOf(f[i + 1]) == OutOf(f[i])
    {
      if i == 0 {
        if bs != [] {
          assert f[1] == Block(bs[0]);
        }
      } else if i < |f| - 2 {
        assert f[i] == Block(bs[i - 1]) && f[i + 1] == Block(bs[i]);
      } else {
        assert f[i] == Block(bs[|bs| - 1]);
      }
    }
  }

  /** The strides of a list of blocks. */
  function StridesOf(bs: seq<InvertedResidual>): (r: seq<int>)
  {
    seq(|bs|, i requires 0 <= i < |bs| => bs[i].stride)
  }

  lemma StridesOfConcat(a: seq<InvertedResidual>, b: seq<InvertedResidual>)
    ensures StridesOf(a + b) == StridesOf(a) + StridesOf(b)
  {
  }

  /** Every row of the MobileNetV2 table has stride 1 or 2. */
  lemma DefaultStridesOk()
    ensures StridesOk(DefaultCfgs)
  {
    forall j | 0 <= j < |DefaultCfgs|
      ensures DefaultCfgs[j].s == 1 || DefaultCfgs[j].s == 2
    {
    }
  }

  /** The stride pattern the table prescribes: per row, `s` once and then
      `n - 1` times 1. */
  function StridePattern(cfgs: seq<Cfg>): (strides: seq<int>)
    decreases |cfgs|
  {
    if cfgs == [] then []
    else
      var last := cfgs[|cfgs| - 1];
      StridePattern(cfgs[..|cfgs| - 1]) + seq(last.n, i => if i == 0 then last.s else 1)
  }

  /** Within each row only the first block uses the row's stride; the rest use 1. */
  lemma {:induction false} BlocksStrides(cfgs: seq<Cfg>, input: nat)
    requires StridesOk(cfgs)
    ensures StridesOf(Blocks(cfgs, input)) == StridePattern(cfgs)
    decreases |cfgs|
  {
    if cfgs != [] {
      var init := cfgs[..|cfgs| - 1];
      var last := cfgs[|cfgs| - 1];
      BlocksStrides(init, input);
      var a := Blocks(init, input);
      var g := GroupBlocks(last, ChannelAfter(init, input));
      assert Blocks(cfgs, input) == a + g;
      StridesOfConcat(a, g);
    }
  }

  /** The MobileNetV2 table gives 1 stem + 17 inverted residual blocks + 1
      head layer, chained, and the last block writes 320 channels. */
  lemma DefaultFeatures(inChannels: nat)
    ensures StridesOk(DefaultCfgs)
    ensures |Features(inChannels, DefaultCfgs)| == 19
    ensures LayersChained(Features(inChannels, DefaultCfgs))
    ensures ChannelAfter(DefaultCfgs, StemWidth) == 320
  {
    DefaultStridesOk();
    var p1, p2, p3 := DefaultCfgs[..1], DefaultCfgs[..2], DefaultCfgs[..3];
    var p4, p5, p6 := DefaultCfgs[..4], DefaultCfgs[..5], DefaultCfgs[..6];
    assert p6[..5] == p5 && p5[..4] == p4 && p4[..3] == p3 && p3[..2] == p2 && p2[..1] == p1;
    assert p1[..0] == [];
    assert TotalRepeats(p1) == 1 && TotalRepeats(p2) == 3 && TotalRepeats(p3) == 6;
    assert TotalRepeats(p4) == 10 && TotalRepeats(p5) == 13 && TotalRepeats(p6) == 16;
    assert TotalRepeats(DefaultCfgs) == 17;
    FeaturesChained(inChannels, DefaultCfgs);
  }

  /** The stride pattern of a row `[t, c, n, s]` with n = 1, 2, 3 or 4. */
  lemma RowPatterns(cfg: Cfg)
    ensures cfg.n == 1 ==> seq(cfg.n, i => if i == 0 then cfg.s else 1) == [cfg.s]
    ensures cfg.n == 2 ==> seq(cfg.n, i => if i == 0 then cfg.s else 1) == [cfg.s, 1]
    ensures cfg.n == 3 ==> seq(cfg.n, i => if i == 0 then cfg.s else 1) == [cfg.s, 1, 1]
    ensures cfg.n == 4 ==> seq(cfg.n, i => if i == 0 then cfg.s else 1) == [cfg.s, 1, 1, 1]
  {
  }

  /** The stride pattern the MobileNetV2 table prescribes. */
  lemma DefaultStridePattern()
    ensures StridePattern(DefaultCfgs) == [1, 2, 1, 2, 1, 1, 2, 1, 1, 1, 1, 1, 1, 2, 1, 1, 1]
  {
    var p1, p2, p3 := DefaultCfgs[..1], DefaultCfgs[..2], DefaultCfgs[..3];
    var p4, p5, p6 := DefaultCfgs[..4], DefaultCfgs[..5], DefaultCfgs[..6];
    assert p6[..5] == p5 && p5[..4] == p4 && p4[..3] == p3 && p3[..2] == p2 && p2[..1] == p1;
    assert p1[..0] == [];
    RowPatterns(DefaultCfgs[0]);
    RowPatterns(DefaultCfgs[1]);
    RowPatterns(DefaultCfgs[2]);
    RowPatterns(DefaultCfgs[3]);
    RowPatterns(DefaultCfgs[4]);
    RowPatterns(DefaultCfgs[5]);
    RowPatterns(DefaultCfgs[6]);
    assert StridePattern(p1) == [1];
    assert StridePattern(p2) == [1, 2, 1];
    assert StridePattern(p3) == [1, 2, 1, 2, 1, 1];
    assert StridePattern(p4) == [1, 2, 1, 2, 1, 1, 2, 1, 1, 1];
    assert StridePattern(p5) == [1, 2, 1, 2, 1, 1, 2, 1, 1, 1, 1, 1, 1];
    assert StridePattern(p6) == [1, 2, 1, 2, 1, 1, 2, 1, 1, 1, 1, 1, 1, 2, 1, 1];
  }

  /** In the MobileNetV2 table the 17 blocks' strides are, in order,
      1 | 2 1 | 2 1 1 | 2 1 1 1 | 1 1 1 | 2 1 1 | 1. */
  lemma DefaultStrides()
    ensures StridesOk(DefaultCfgs)
    ensures StridesOf(Blocks(DefaultCfgs, StemWidth))
      == [1, 2, 1, 2, 1, 1, 2, 1, 1, 1, 1, 1, 1, 2, 1, 1, 1]
  {
    DefaultStridesOk();
    BlocksStrides(DefaultCfgs, StemWidth);
    DefaultStridePattern();
  }

  /** Expanding one more row of the table appends that row's blocks and
      moves `input_channel` to its width when it has any block. */
  lemma BlocksStep(cfgs: seq<Cfg>, g: nat, input: nat)
    requires g < |cfgs| && StridesOk(cfgs[..g]) && RowOk(cfgs[g])
    ensures StridesOk(cfgs[..g + 1])
    ensures Blocks(cfgs[..g + 1], input) == Blocks(cfgs[..g], input) + GroupBlocks(cfgs[g], ChannelAfter(cfgs[..g], input))
    ensures ChannelAfter(cfgs[..g + 1], input)
      == if cfgs[g].n > 0 then cfgs[g].c else ChannelAfter(cfgs[..g], input)
  {
    assert cfgs[..g + 1][..g] == cfgs[..g];
    assert forall i :: 0 <= i < g ==> cfgs[..g + 1][i] == cfgs[..g][i];
  }


  /** The inner loop of the MobileNetV2 constructor for one row `[t, c, n, s]`
      of `cfgs`: appends the row's n blocks with `input_channel` threaded
      through them, or fails on the first block's stride assertion. */
  method AppendRow(layers: seq<FeatureLayer>, inputChannel: nat, cfg: Cfg)
    returns (r: Result<(seq<FeatureLayer>, nat), BlockError>)
    ensures r.Err? <==> !RowOk(cfg)
    ensures r.Ok? ==>
      && RowOk(cfg)
      && r.value.0 == layers + AsLayers(GroupBlocks(cfg, inputChannel))
      && r.value.1 == (if cfg.n > 0 then cfg.c else inputChannel)
  {
    ghost var group := if RowOk(cfg) then GroupBlocks(cfg, inputChannel) else [];
    var outputChannel := cfg.c;
    var current, channel := layers, inputChannel;
    var i := 0;
    while i < cfg.n
      invariant 0 <= i <= cfg.n
      invariant i > 0 ==> RowOk(cfg)
      invariant channel == (if i == 0 then inputChannel else outputChannel)
      invariant RowOk(cfg) ==> current == layers + AsLayers(group[..i])
    {
      var block := NewInvertedResidual(channel, outputChannel, if i == 0 then cfg.s else 1, cfg.t);
      if block.Err? {
        return Err(block.error);
      }
      AsLayersAppend(group[..i], group[i]);
      assert group[..i + 1] == group[..i] + [group[i]];
      current := current + [Block(block.value)];
      channel := outputChannel;
      i := i + 1;
    }
    assert group[..cfg.n] == group;
    return Ok((current, channel));
  }

  /** The loop of the MobileNetV2 constructor: the stem, then for each row
      of `cfgs` its blocks, then the 1x1 head; it fails as soon as a block
      fails the stride assertion. */
  method BuildFeatures(inChannels: nat, cfgs: seq<Cfg>) returns (r: Result<seq<FeatureLayer>, BlockError>)
    ensures r.Err? <==> !StridesOk(cfgs)
    ensures r.Ok? ==> StridesOk(cfgs) && r.value == Features(inChannels, cfgs)
  {
    var inputChannel := StemWidth;
    var layers := [ConvBn(inChannels, inputChannel, 2)];
    var g := 0;
    while g < |cfgs|
      invariant 0 <= g <= |cfgs| && StridesOk(cfgs[..g])
      invariant inputChannel == ChannelAfter(cfgs[..g], StemWidth)
      invariant layers == [ConvBn(inChannels, StemWidth, 2)] + AsLayers(Blocks(cfgs[..g], StemWidth))
    {
      var row := AppendRow(layers, inputChannel, cfgs[g]);
      if row.Err? {
        return Err(row.error);
      }
      BlocksStep(cfgs, g, StemWidth);
      AsLayersConcat(Blocks(cfgs[..g], StemWidth), GroupBlocks(cfgs[g], inputChannel));
      layers, inputChannel := row.value.0, row.value.1;
      g := g + 1;
    }
    assert cfgs[..|cfgs|] == cfgs;
    return Ok(layers + [Conv1x1Bn(inputChannel, LastWidth)]);
  }

  /** utils/get_model_unlearn.py, class MobileNetV2, with `expand=1.0`. */
  class MobileNetV2 {
    var cfgs: seq<Cfg>
    var features: seq<FeatureLayer>

    constructor(inChannels: nat)
      ensures cfgs == DefaultCfgs && StridesOk(cfgs)
      ensures features == Features(inChannels, DefaultCfgs)
    {
      cfgs := DefaultCfgs;
      DefaultStridesOk();
      var built := BuildFeatures(inChannels, DefaultCfgs);
      features := built.value;
    }
  }
}
