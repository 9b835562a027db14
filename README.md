# Model hijacking: network shapes, early stopping and re-identification

This project models, in Dafny, the deterministic bookkeeping of a
model-hijacking experiment built with PyTorch. It covers seven pieces:

- **EarlyStopper** (`utils/get_model_unlearn.py`). It records the smallest validation loss seen. It counts calls whose loss is worse than that minimum by more than `min_delta`. It asks to stop once the count reaches `patience`.
- **ResNet.\_make\_layer**. It decides when a stage's first BasicBlock needs a downsample branch, how many blocks the stage has, and how `self.inplanes` and `self.dilation` carry over to the next stage. The ResNet constructor chains four stages.
- **InvertedResidual**. It covers the `assert stride in [1, 2]` check, the `use_res_connect` rule and the convolution stack.
- **MobileNetV2's constructor loop**. It expands the `cfgs` table into the feature list.
- **SubModelN** and **GetSubModelFromConv**. The first keeps a prefix of a model's children. The second cuts the child list after the child named `conv<idx>`.
- **find_max_indices** and **find_min_indices** (`hijack_utk.py`). These are the top-k selections built on `np.argpartition` and `np.argsort`.
- **The top-1 re-identification count** at the end of `hijack_utk.py`. It masks the diagonal of the similarity matrix with -inf, picks the best match per row, counts matching identities, and computes the accuracy.

How the model is built:

- Layers are descriptors of their constructor arguments; no tensor is modelled.
- Objects whose fields the source updates become classes:
  - `EarlyStopper`, whose `EarlyStop` updates `counter` and `min_validation_loss` (a `modifies` clause);
  - `ResNet`, whose `MakeLayer` updates `inplanes` and `dilation` (a `modifies` clause);
  - `MobileNetV2` and `SubModelN`, whose constructors run the source's loops to set their fields.
- Each such method is proved against a pure specification function (`Step`, `MakeLayerSpec`, `Features`, `FirstLayers`, `MatchedRows`). The properties are lemmas about those functions.
- The similarity matrix is copied into an `array2`, and the diagonal is masked in place, as `np.fill_diagonal` does.
- Python exceptions become the `Err` case of a `Result`, or `None` for a division by zero:
  - the `ValueError` raised when `k > len(arr)`;
  - `np.argpartition` rejecting an out-of-range `kth`;
  - the failed stride assertion.
- float64 entries are `Float = NegInf | Finite(real) | PosInf`.

Edge cases the model takes from the code as written:

- `find_max_indices(arr, 0)` returns every position, largest first, because the slice `[-0:]` keeps the whole array.
- `find_min_indices(arr, len(arr))` fails inside `np.argpartition` when `arr` is not empty.
- On an empty array both functions return `[]` for `k = 0` (argpartition checks `kth` only on a non-empty array) and raise the `ValueError` for `k >= 1`.

## Model

| member | source | states |
|---|---|---|
| EarlyStopperModel.Classify | utils/get_model_unlearn.py:322-330 | a loss is an improvement iff it is below the recorded minimum (any real is below +inf); within tolerance iff it lies in [min, min + min_delta]; worsening iff it is at least the minimum and above min + min_delta |
| EarlyStopperModel.Step | utils/get_model_unlearn.py:322-330 | one call keeps patience and min_delta, never raises the recorded minimum, leaves it at most the new loss, changes it only to the new loss, and returns True only on a worsening call whose counter has reached patience |
| EarlyStopperModel.ImprovementResets | utils/get_model_unlearn.py:323-325 | a loss below the minimum becomes the minimum, resets the counter to 0 and returns False |
| EarlyStopperModel.ToleranceChangesNothing | utils/get_model_unlearn.py:322-330 | a loss within min_delta of the minimum (and not below it) changes no state and returns False |
| EarlyStopperModel.WorseningCounts | utils/get_model_unlearn.py:326-329 | a loss worse than min + min_delta adds one to the counter, keeps the minimum, and returns True iff the new counter is at least patience |
| EarlyStopperModel.FirstLossImproves | utils/get_model_unlearn.py:316-325 | on a fresh stopper (minimum +inf) the first loss always becomes the minimum with counter 0 and no stop |
| EarlyStopperModel.RunTracksMinimum | utils/get_model_unlearn.py:322-325 | after any non-empty series of calls the recorded minimum is finite, at most every loss seen and the starting minimum, and is either the starting minimum or one of the losses |
| EarlyStopperModel.RunCounterBound | utils/get_model_unlearn.py:326-327 | the counter grows by at most one per call |
| EarlyStopperModel.SustainedWorseningStops | utils/get_model_unlearn.py:326-329 | a series of worsening losses raises the counter by one each, leaves the minimum alone, and the i-th call returns True exactly when counter + i + 1 reaches patience |
| EarlyStopperModel.EarlyStopper.constructor | utils/get_model_unlearn.py:316-320 | the new object has the given patience and min_delta, counter 0 and minimum +inf |
| EarlyStopperModel.EarlyStopper.EarlyStop | utils/get_model_unlearn.py:322-330 | the new fields and the returned flag are those of Step on the old fields; patience and min_delta unchanged; per branch: reset on improvement, nothing changed within tolerance, counter + 1 and stop iff counter >= patience on worsening |
| ResNetLayers.MakeLayerSpec | utils/get_model_unlearn.py:98-120 | max(1, blocks) blocks chained, through the widths `self.inplanes` records, from the old inplanes to planes * expansion, each with a well-shaped shortcut (identity only when width and stride are kept, otherwise a downsample of exactly the block's input width and stride); inplanes becomes planes * expansion; the first block has the given stride and the previous dilation (stride 1 when dilating); later blocks have stride 1, no downsample and the new dilation; the dilation becomes dilation * stride when dilating and is unchanged otherwise |
| ResNetLayers.DownsampleRule | utils/get_model_unlearn.py:105-108 | with dilate=False the first block gets a downsample iff stride != 1 or inplanes != planes * expansion, and keeps the stride |
| ResNetLayers.ResNet.MakeLayer | utils/get_model_unlearn.py:98-120 | the blocks returned and the new inplanes and dilation fields are exactly MakeLayerSpec of the old fields |
| ResNetLayers.ResNet.constructor | utils/get_model_unlearn.py:67-80 | with expand=1.0 and layers=[1,1,1,1] the four stages are single blocks 16→64 (stride 1), 64→128, 128→256 and 256→512 (stride 2), each with a downsample, and inplanes ends at 512 |
| MobileNet.NewInvertedResidual | utils/get_model_unlearn.py:157-187 | fails iff the stride is not 1 or 2; otherwise keeps inp, oup, stride and expand_ratio, uses the residual connection iff stride == 1 and inp == oup, and its convolutions chain inp to oup with strides 1 or the block's stride (all 1 when the residual is used) |
| MobileNet.GroupBlock | utils/get_model_unlearn.py:216-222 | the i-th block of a row [t, c, n, s] writes c channels with ratio t; only the first reads the entry channel count and uses stride s, the rest read c and use stride 1 |
| MobileNet.GroupBlocks | utils/get_model_unlearn.py:217-222 | a row contributes exactly n blocks, the i-th being GroupBlock |
| MobileNet.Blocks | utils/get_model_unlearn.py:215-222 | the inverted residual blocks the rows contribute, row after row, each row's GroupBlocks read from the channel count the earlier rows leave |
| MobileNet.ChannelAfter | utils/get_model_unlearn.py:215-222 | input_channel after expanding the rows is the starting width or the width c of some row with n > 0, and the starting width when no row has blocks |
| MobileNet.BlocksStep | utils/get_model_unlearn.py:215-222 | expanding one more row appends that row's blocks and moves input_channel to its width when it has any block |
| MobileNet.Features | utils/get_model_unlearn.py:212-226 | self.features: the stem conv_bn(in_channels, 16, 2), the blocks, and the head conv_1x1_bn(input_channel, 1280) |
| MobileNet.BlocksCount | utils/get_model_unlearn.py:215-222 | the table expands to the sum of its n values blocks |
| MobileNet.BlocksChained | utils/get_model_unlearn.py:212-222 | the blocks thread input_channel: the first reads the stem width, each reads what the previous writes, the last writes the channel count the head reads |
| MobileNet.FeaturesChained | utils/get_model_unlearn.py:212-226 | the features are stem + sum of n blocks + head, and each layer reads exactly the channels the previous one writes |
| MobileNet.BlocksStrides | utils/get_model_unlearn.py:215-222 | the blocks' strides are, row by row, s once and then n - 1 ones |
| MobileNet.DefaultFeatures | utils/get_model_unlearn.py:200-226 | the MobileNetV2 table passes the stride check and gives 19 chained feature layers whose last block writes 320 channels |
| MobileNet.DefaultStridesOk | utils/get_model_unlearn.py:200-209 | every row of the MobileNetV2 table passes the stride assertion |
| MobileNet.DefaultStridePattern | utils/get_model_unlearn.py:200-209 | the table prescribes the stride list 1,2,1,2,1,1,2,1,1,1,1,1,1,2,1,1,1 |
| MobileNet.DefaultStrides | utils/get_model_unlearn.py:200-222 | the 17 blocks of the table have strides 1,2,1,2,1,1,2,1,1,1,1,1,1,2,1,1,1 |
| MobileNet.AppendRow | utils/get_model_unlearn.py:216-222 | the inner loop over one row fails (AssertionError) iff the row has blocks and its stride is not 1 or 2; otherwise it appends exactly the row's GroupBlocks and leaves input_channel at c, or unchanged when n = 0 |
| MobileNet.BuildFeatures | utils/get_model_unlearn.py:212-226 | the constructor loop fails iff some row with n > 0 has a stride other than 1 or 2; otherwise it produces exactly Features(in_channels, cfgs) |
| MobileNet.MobileNetV2.constructor | utils/get_model_unlearn.py:197-226 | cfgs is the seven-row table DefaultCfgs of lines 200-209, it passes the stride check, and features is Features of it |
| Base.NatToString | utils/get_model_unlearn.py:526 | Python's str(n) for a natural: at least one character, all decimal digits, a single digit exactly when n < 10 |
| Base.IntToString | utils/get_model_unlearn.py:554 | Python's str(i): starts with '-' exactly when i is negative |
| Base.NatToStringInjective | utils/get_model_unlearn.py:526 | different naturals print differently |
| Base.IntToStringInjective | utils/get_model_unlearn.py:554 | different integers print differently |
| SubModels.LayerName | utils/get_model_unlearn.py:526 | the name f'layer{i}' the i-th kept child is registered under |
| SubModels.LayerNameInjective | utils/get_model_unlearn.py:526 | different positions get different layer names |
| SubModels.ConvName | utils/get_model_unlearn.py:554 | the name 'conv' + str(conv_idx) the cut stops at |
| SubModels.ConvNameInjective | utils/get_model_unlearn.py:554 | different indices name different children |
| SubModels.FirstLayers | utils/get_model_unlearn.py:523-526 | the kept children are the first min(max(n_layers, 0), #children) modules, in order, the i-th named layer<i> |
| SubModels.KeptNamesDistinct | utils/get_model_unlearn.py:523-526 | the children SubModelN registers have pairwise different names, so no add_module call replaces an earlier one |
| SubModels.SubModelN.constructor | utils/get_model_unlearn.py:516-526 | after visiting every child, the registered children are FirstLayers of the model's children, and model_name and setting are stored |
| SubModels.GetSubModelFromConv | utils/get_model_unlearn.py:549-557 | the result is a prefix of the children; no child before its last is named conv<idx>; if it is shorter than the children its last child is named conv<idx>; with no such child it is all children |
| Ranking.FindMaxIndices | hijack_utk.py:22-29 | k > len fails with the ValueError; otherwise it succeeds, with k positions (all of them for k = 0), distinct, in range, in non-increasing order of value, and no position left out has a larger value than a chosen one |
| Ranking.FindMinIndices | hijack_utk.py:14-20 | k > len fails with the ValueError; k == len > 0 fails in argpartition; otherwise (including k == len == 0) it succeeds with k distinct in-range positions in increasing position order, none larger in value than any position left out |
| Ranking.SelectRanked | hijack_utk.py:17-18 | selects m positions as a ranked selection (distinct, ordered by value, dominating every position left out) |
| Ranking.InPositionOrder | hijack_utk.py:18-20 | reorders a set of distinct positions into strictly increasing order with the same elements and length |
| Ranking.RankedValuesDetermined | hijack_utk.py:26-27 | whatever order argpartition/argsort give to equal entries, two ranked selections of the same length list the same values rank by rank |
| Reidentification.MaskedRow | hijack_utk.py:141-142 | row i after fill_diagonal(-inf): -inf at column i and the similarity elsewhere |
| Reidentification.Top1OfMaskedRow | hijack_utk.py:142-152 | with at least two samples, a single position is the top-1 of the masked row iff it is another sample with maximal similarity |
| Reidentification.NearestOthers | hijack_utk.py:151-152 | row by row, top-1 choices on the masked rows are nearest other samples |
| Reidentification.MatchedRows | hijack_utk.py:151-157 | correct_images after the rows below upTo: strictly increasing samples below upTo, at most upTo of them |
| Reidentification.MatchedRowsMembers | hijack_utk.py:151-157 | a sample is counted iff its chosen match has the sample's own identity |
| Reidentification.MatchedRowsStable | hijack_utk.py:151-157 | the samples counted below a row depend only on the matches chosen for those samples |
| Reidentification.MatchedRowsExtend | hijack_utk.py:154-157 | choosing the next sample's match appends that sample exactly when the identities agree |
| Reidentification.Accuracy | hijack_utk.py:159 | None (ZeroDivisionError) iff there are no samples; otherwise accuracy * n == correct, and accuracy lies in [0, 1] |
| Reidentification.FillDiagonal | hijack_utk.py:142 | the diagonal holds the value and every other entry is unchanged |
| Reidentification.ToArray | hijack_utk.py:141 | a fresh n-by-n array holding the similarity matrix |
| Reidentification.TopMatch | hijack_utk.py:152 | find_max_indices(row, 1) on the masked row returns one position that is a top-1 ranked selection of it |
| Reidentification.ChosenLists | hijack_utk.py:155 | correct_indices: for each matched sample, the one-element index list find_max_indices returned for it |
| Reidentification.CountMatches | hijack_utk.py:147-157 | every sample's match is a top-1 choice; correct_images is the matched samples in order, correct their number, and correct_indices the matched samples' index lists |
| Reidentification.Reidentify | hijack_utk.py:141-159 | as CountMatches, plus: with two or more samples every match is a nearest other sample, and accuracy is Accuracy(correct, n) |

## Left out

- Forward passes, BasicBlock internals, convolution arithmetic, batch norm, classifier heads, weight initialisation, dropout and the `forward` branches of SubModelN: tensors are not modelled.
- The width scaling `int(c * expand)`: the ResNet and MobileNetV2 constructors are modelled for `expand=1.0`, the parameter's default; `_make_layer`, `InvertedResidual` and the cfgs loop take arbitrary widths.
- EarlyStopperModel.Step / EarlyStopperModel.EarlyStopper.EarlyStop: validation losses are finite reals; NaN and infinite losses are not modelled. In the source a NaN loss fails both comparisons, so the call changes nothing and returns False (a stopper fed only NaN never stops); a +inf loss against a finite minimum counts as worsening, and a -inf loss becomes the minimum. The threshold `min_validation_loss + min_delta` is summed exactly here, where the source rounds it to float64.
- Reidentification.Accuracy: the accuracy is the exact quotient `correct / n`, where the source computes the float64 quotient rounded to nearest; `accuracy * n == correct` holds of the exact quotient only (for correct = 1 and n = 49 the float64 product is 0.9999999999999999).
- ResNetLayers.MakeLayerSpec: `BlockOut` is the `planes * expansion` that `_make_layer` threads through `self.inplanes`; a BasicBlock's own convolutions are `int(planes * (base_width / 64.)) * groups` wide (line 31), which equals it only for `groups = 1` and `base_width = 64`, the values the ResNet constructor passes. For other values the chaining and shortcut claims are about the threaded widths, not the convolutions.
- Default arguments: `EarlyStopper(patience=1, min_delta=0)` and `GetSubModelFromConv(model, conv_idx=2)` are modelled with the arguments always passed explicitly; the ResNet constructor is parameterless (`in_channels` and `num_classes` only shape `conv1` and `fc`, which are not modelled) and fixes `layers=[1, 1, 1, 1]`, `groups=1`, `width_per_group=64`, `block=BasicBlock` (expansion 1), `norm_layer=None` and `zero_init_residual=False` besides `expand=1.0`; MobileNetV2's constructor takes `in_channels` only, with `expand=1.0`.
- `replace_stride_with_dilation`: the ResNet constructor passes `dilate=False`; `_make_layer` itself models the dilate branch.
- MobileNet.NewInvertedResidual: fails only on the stride assertion; PyTorch's own argument checks in `nn.Conv2d` are outside this repository's code and are not modelled, so a zero `hidden_dim = round(inp * expand_ratio)` (an `inp` or `expand_ratio` of 0, which makes the depthwise convolution's `groups` 0 at lines 168 and 182) raises a `ValueError` in PyTorch but is `Ok` here.
- MobileNet.AppendRow: for the same reason, a row with t = 0, or with c = 0 and n >= 2, or a first block reading 0 channels, fails in PyTorch but is `Ok` here; the `Err` case covers the stride assertion only.
- MobileNet.BuildFeatures: for the same reason, a table whose blocks would get a zero `hidden_dim` fails in PyTorch but is `Ok` here; the `Err` case covers the stride assertion only. The MobileNetV2 table (all t >= 1, all c >= 16, stem width 16) never reaches this case.
- MobileNet.NewInvertedResidual: `round(inp * expand_ratio)` is taken with an integer ratio, as every row of the table has one; fractional ratios are not modelled.
- The GradSampleModule unwrapping in SubModelN, and PyTorch's deduplication of a module registered twice by `named_children`: children are a list of (name, module) pairs.
- SubModels.GetSubModelFromConv: `add_module` of a name already present replaces the earlier module; the model keeps the prefix as a list, which is the same thing whenever the child names are distinct, as `named_children` yields them.
- NaN in float64 arrays: `Float` has only finite values and the two infinities.
- numpy's order among equal entries: the model picks one admissible order (lowest position first); the contracts hold for every admissible order, and Ranking.RankedValuesDetermined shows the values selected do not depend on it.
- Negative `k` for find_max_indices / find_min_indices: `k` is a natural number here; the code only passes 1.
- The cosine similarity computation (scikit-learn): the similarity matrix is an input.
- Training and evaluation loops, the `EarlyStopping` class imported from `utils/pytorchtools` (a separate class from `EarlyStopper`), `top_k_accuracy`, TransformerModel, SimpleModel, data loading, argument parsing, random seeding, `count_all_parameters`, printing the accuracy and appending it to the results CSV: I/O and numerical training are outside the model.
