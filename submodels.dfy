/** Submodel extraction in utils/get_model_unlearn.py: SubModelN keeps a
    prefix of a model's children, and GetSubModelFromConv cuts the child
    list after the child named `conv<idx>`. A child is a name and a module
    of the opaque type `L`. */
module SubModels {
  import opened Base

  /** The name SubModelN registers its i-th kept child under: `f'layer{i}'`. */
  function LayerName(i: nat): (name: string)
  {
    "layer" + NatToString(i)
  }

  /** The kept children get pairwise different names, so no `add_module`
      call of the constructor replaces an earlier child. */
  lemma LayerNameInjective(i: nat, j: nat)
    requires LayerName(i) == LayerName(j)
    ensures i == j
  {
    assert LayerName(i)[5..] == NatToString(i);
    assert LayerName(j)[5..] == NatToString(j);
    NatToStringInjective(i, j);
  }

  /** The name GetSubModelFromConv stops at: `'conv' + str(conv_idx)`. */
  function ConvName(convIdx: int): (name: string)
  {
    "conv" + IntToString(convIdx)
  }

  /** Different indices name different convolutions: the child the cut
      stops at is determined by `conv_idx`. */
  lemma ConvNameInjective(a: int, b: int)
    requires ConvName(a) == ConvName(b)
    ensures a == b
  {
    assert ConvName(a)[4..] == IntToString(a);
    assert ConvName(b)[4..] == IntToString(b);
    IntToStringInjective(a, b);
  }

  /** The modules of a list of named children. */
  function Modules<L>(children: seq<(string, L)>): (r: seq<L>)
  {
    seq(|children|, i requires 0 <= i < |children| => children[i].1)
  }

  /** The children SubModelN ends up with: the modules before position
      `nLayers`, named layer0, layer1, ... */
  function FirstLayers<L>(modules: seq<L>, nLayers: int): (r: seq<(string, L)>)
    ensures |r| == Min(Max(nLayers, 0), |modules|)
    ensures Modules(r) == modules[..|r|]
    ensures forall i :: 0 <= i < |r| ==> r[i].0 == LayerName(i)
  {
    var m := Min(Max(nLayers, 0), |modules|);
    var r := seq(m, i requires 0 <= i < m => (LayerName(i), modules[i]));
    assert Modules(r) == modules[..m];
    r
  }

  /** The children SubModelN registers have pairwise different names. */
  lemma KeptNamesDistinct<L>(modules: seq<L>, nLayers: int)
    ensures var r := FirstLayers(modules, nLayers);
      forall i, j :: 0 <= i < j < |r| ==> r[i].0 != r[j].0
  {
    var r := FirstLayers(modules, nLayers);
    forall i, j | 0 <= i < j < |r|
      ensures r[i].0 != r[j].0
    {
      if r[i].0 == r[j].0 {
        LayerNameInjective(i, j);
      }
    }
  }

  /** utils/get_model_unlearn.py, class SubModelN (its constructor). */
  class SubModelN<L> {
    var modelName: string
    var setting: string
    var children: seq<(string, L)>

    /** Registers `modules[i]` as `layer<i>` for every position i below
        `nLayers`, visiting every child of the model. */
    constructor(modules: seq<L>, nLayers: int, modelName: string, setting: string)
      ensures this.modelName == modelName && this.setting == setting
      ensures children == FirstLayers(modules, nLayers)
    {
      this.modelName := modelName;
      this.setting := setting;
      var kept: seq<(string, L)> := [];
      var i := 0;
      while i < |modules|
        invariant 0 <= i <= |modules|
        invariant kept == FirstLayers(modules[..i], nLayers)
      {
        if i < nLayers {
          kept := kept + [(LayerName(i), modules[i])];
        }
        assert modules[..i + 1][..i] == modules[..i];
        i := i + 1;
      }
      assert modules[..|modules|] == modules;
      children := kept;
    }
  }

  /** `GetSubModelFromConv(model, conv_idx)`: the children of the model in
      order, up to and including the first one named `conv<conv_idx>`, or
      all of them when none has that name. */
  method GetSubModelFromConv<L>(children: seq<(string, L)>, convIdx: int) returns (sub: seq<(string, L)>)
    ensures |sub| <= |children| && sub == children[..|sub|]
    ensures forall i :: 0 <= i < |sub| - 1 ==> sub[i].0 != ConvName(convIdx)
    ensures |sub| < |children| ==> |sub| > 0 && sub[|sub| - 1].0 == ConvName(convIdx)
    ensures (forall i :: 0 <= i < |children| ==> children[i].0 != ConvName(convIdx)) ==> sub == children
  {
    var target := ConvName(convIdx);
    sub := [];
    var i := 0;
    while i < |children|
      invariant 0 <= i <= |children|
      invariant sub == children[..i]
      invariant forall j :: 0 <= j < i ==> children[j].0 != target
    {
      sub := sub + [children[i]];
      if children[i].0 == target {
        return;
      }
      i := i + 1;
    }
  }
}
