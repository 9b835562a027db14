/** The shape bookkeeping of ResNet in utils/get_model_unlearn.py: how
    `_make_layer` decides on a downsample branch, how many BasicBlocks it
    builds and how it threads `self.inplanes` from one stage to the next.
    Blocks are descriptors of their constructor arguments; no tensors. */
module ResNetLayers {
  import opened Base

  /** `BasicBlock.expansion`. */
  const Expansion: nat := 1

  /** The `downsample` branch: a 1x1 convolution (with its norm layer). */
  datatype Downsample = Downsample(inPlanes: nat, outPlanes: nat, stride: int)

  /** The arguments a BasicBlock is built with. */
  datatype BasicBlock = BasicBlock(
    inplanes: nat, planes: nat, stride: int, downsample: Option<Downsample>,
    groups: nat, baseWidth: nat, dilation: int)

  /** What `_make_layer` produces: the blocks of the stage, and the values
      `self.inplanes` and `self.dilation` hold afterwards. */
  datatype Stage = Stage(blocks: seq<BasicBlock>, inplanes: nat, dilation: int)

  /** The channel count `_make_layer` records in `self.inplanes` after a
      block: `planes * expansion`. The block's convolutions are
      `int(planes * (base_width / 64.)) * groups` wide, which is the same
      number for `groups = 1` and `base_width = 64`. */
  function BlockOut(b: BasicBlock): (out: nat)
  {
    b.planes * Expansion
  }

  /** The residual addition of a block is well shaped, in the widths
      `self.inplanes` records: the identity shortcut is used only when the
      block keeps both its width and its resolution,
      and otherwise the downsample branch maps exactly the block's input
      width and stride to its output width. */
  predicate ShortcutFits(b: BasicBlock)
  {
    match b.downsample
    case None => b.stride == 1 && b.inplanes == BlockOut(b)
    case Some(d) => d == Downsample(b.inplanes, BlockOut(b), b.stride)
  }

  /** The blocks form a chain from `input` channels to `output` channels. */
  predicate Chained(blocks: seq<BasicBlock>, input: nat, output: nat)
  {
    && |blocks| > 0
    && blocks[0].inplanes == input
    && BlockOut(blocks[|blocks| - 1]) == output
    && forall i :: 0 <= i < |blocks| - 1 ==> blocks[i + 1].inplanes == BlockOut(blocks[i])
  }

  /** `_make_layer(block, planes, blocks, stride, dilate)` run with
      `self.inplanes == inplanes` and `self.dilation == dilation`. */
  function MakeLayerSpec(
    inplanes: nat, dilation: int, groups: nat, baseWidth: nat,
    planes: nat, blocks: int, stride: int, dilate: bool): (r: Stage)
    ensures |r.blocks| == Max(1, blocks)
    ensures Chained(r.blocks, inplanes, planes * Expansion)
    ensures r.inplanes == planes * Expansion
    ensures r.dilation == if dilate then dilation * stride else dilation
    ensures forall i :: 0 <= i < |r.blocks| ==>
      ShortcutFits(r.blocks[i]) && r.blocks[i].planes == planes
      && r.blocks[i].groups == groups && r.blocks[i].baseWidth == baseWidth
    ensures r.blocks[0].stride == (if dilate then 1 else stride)
    ensures r.blocks[0].dilation == dilation
    ensures forall i :: 1 <= i < |r.blocks| ==>
      r.blocks[i].stride == 1 && r.blocks[i].downsample.None? && r.blocks[i].dilation == r.dilation
  {
    var newDilation := if dilate then dilation * stride else dilation;
    var firstStride := if dilate then 1 else stride;
    var out := planes * Expansion;
    var downsample :=
      if firstStride != 1 || inplanes != out then Some(Downsample(inplanes, out, firstStride)) else None;
    var first := BasicBlock(inplanes, planes, firstStride, downsample, groups, baseWidth, dilation);
    var rest := seq(Max(1, blocks) - 1, _ => BasicBlock(out, planes, 1, None, groups, baseWidth, newDilation));
    Stage([first] + rest, out, newDilation)
  }

  /** With `dilate=False`, as every caller passes it, the first block gets a
      downsample exactly when the stride is not 1 or the width changes. */
  lemma DownsampleRule(
    inplanes: nat, dilation: int, groups: nat, baseWidth: nat,
    planes: nat, blocks: int, stride: int)
    ensures var r := MakeLayerSpec(inplanes, dilation, groups, baseWidth, planes, blocks, stride, false);
      && r.blocks[0].stride == stride
      && (r.blocks[0].downsample.Some? <==> stride != 1 || inplanes != planes * Expansion)
      && r.dilation == dilation
  {
  }

  /** utils/get_model_unlearn.py, class ResNet, with `expand=1.0`,
      `block=BasicBlock` and `layers=[1, 1, 1, 1]`. */
  class ResNet {
    var inplanes: nat
    var dilation: int
    var groups: nat
    var baseWidth: nat
    var layer1: seq<BasicBlock>
    var layer2: seq<BasicBlock>
    var layer3: seq<BasicBlock>
    var layer4: seq<BasicBlock>

    /** `self._make_layer(block, planes, blocks, stride, dilate)`. */
    method MakeLayer(planes: nat, blocks: int, stride: int, dilate: bool) returns (layers: seq<BasicBlock>)
      modifies this`inplanes, this`dilation
      ensures Stage(layers, inplanes, dilation)
        == MakeLayerSpec(old(inplanes), old(dilation), groups, baseWidth, planes, blocks, stride, dilate)
    {
      ghost var spec := MakeLayerSpec(inplanes, dilation, groups, baseWidth, planes, blocks, stride, dilate);
      var firstStride := stride;
      var downsample: Option<Downsample> := None;
      var previousDilation := dilation;
      if dilate {
        dilation := dilation * stride;
        firstStride := 1;
      }
      if firstStride != 1 || inplanes != planes * Expansion {
        downsample := Some(Downsample(inplanes, planes * Expansion, firstStride));
      }
      layers := [BasicBlock(inplanes, planes, firstStride, downsample, groups, baseWidth, previousDilation)];
      inplanes := planes * Expansion;
      var i := 1;
      while i < blocks
        invariant 1 <= i == |layers| <= Max(1, blocks)
        invariant layers == spec.blocks[..i]
      {
        layers := layers + [BasicBlock(inplanes, planes, 1, None, groups, baseWidth, dilation)];
        i := i + 1;
      }
      assert layers == spec.blocks;
    }

    /** The ResNet constructor's stage building: inplanes starts at 16 and
        the four stages use 64, 128, 256 and 512 planes with strides 1, 2, 2
        and 2. */
    constructor()
      ensures groups == 1 && baseWidth == 64 && dilation == 1
      ensures layer1 == [BasicBlock(16, 64, 1, Some(Downsample(16, 64, 1)), 1, 64, 1)]
      ensures layer2 == [BasicBlock(64, 128, 2, Some(Downsample(64, 128, 2)), 1, 64, 1)]
      ensures layer3 == [BasicBlock(128, 256, 2, Some(Downsample(128, 256, 2)), 1, 64, 1)]
      ensures layer4 == [BasicBlock(256, 512, 2, Some(Downsample(256, 512, 2)), 1, 64, 1)]
      ensures inplanes == 512 * Expansion
    {
      inplanes := 16;
      dilation := 1;
      groups := 1;
      baseWidth := 64;
      new;
      layer1 := MakeLayer(64, 1, 1, false);
      layer2 := MakeLayer(128, 1, 2, false);
      layer3 := MakeLayer(256, 1, 2, false);
      layer4 := MakeLayer(512, 1, 2, false);
    }
  }
}
