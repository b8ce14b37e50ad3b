# Loki histogram engine and helpers, modelled in Dafny

Loki is a toolkit for filling, merging and plotting ROOT histograms from
flat ntuples, and for training and evaluating the multivariate taggers
those histograms describe. This project models its core in Dafny and
proves properties of the model:

- **The filling engine** (`LokiHist1D/2D/3D`, `LokiSelector`). A
  histogram definition holds axis expressions, edge vectors, and an
  optional selection and weight. `Init` books the histogram. `Fill(n)`
  walks slots `0..n-1`: it skips unselected slots and fills the rest with
  the weight, or with 1.0. The selector interns one formula per distinct
  expression text. It streams definitions through its input list and fills
  every histogram with the same slot count for each event. At the end it
  writes the booked histograms. The binned accumulator underneath
  (module `Histogram`) keeps a sum of weights, a sum of squared weights and
  an entry count per cell. It has half-open bins with an underflow bin and
  an overflow bin.
- **The processor** (`loki/core/process.py`, and the older
  `_depr_process.py`):
  - it combines selections and weights and checks the rule of at most one
    multi-valued container;
  - it groups component histograms into one job per container group and
    input file;
  - it deduplicates blueprints by hash and dispatches them on
    dimensionality;
  - it merges the scaled per-file outputs back into one histogram.
- **The pure logic around it:**
  - variables and expressions, views and name lookup;
  - bin-edge and histogram helpers;
  - drawable trees and migration matrices;
  - samples and cross-section scaling;
  - style merging and plot ranges;
  - TMVA option strings and their parser;
  - the working-point tuner and the score-cut extraction;
  - algorithm workspaces and grids;
  - training ntuples;
  - the ROOT-to-HTML table helpers;
  - the `key: value` property store;
  - the source-file generator;
  - the tau-ID run script's file plan and the TES resolution plots.

Floats are reals and Python's truthiness is written out. Everything that
touches ROOT's runtime, the file system, the clock or a worker pool is a
parameter of the model: formula values per slot, event counts, file
existence, cache contents, and histograms read back from files.

There is one module per source file. `Wrappers` (Option and Result),
`Strings` (the Python `str` operations used) and `Reals` (sums and
truncation) are shared helpers.

## Model

| member | source | states |
|---|---|---|
| Histogram.FindBin | src/LokiHist.C:57 | the bin a value falls in along an axis never exceeds the overflow bin, one past the last edge |
| Histogram.FindBinBelow | src/LokiHist.C:57 | when exactly the first k edges are at or below a value, its bin is k |
| Histogram.FindBinHalfOpen | src/LokiHist.C:57 | a value below the first edge lands in the underflow, a value at or above the last edge in the overflow, and any other value in the half-open bin [e[b-1], e[b]) |
| Histogram.FindBinWitness | src/LokiHist.C:57 | the bin index splits the edges: every edge before it is at or below the value, every edge from it on is above |
| Histogram.BinarySearchBin | src/LokiHist.C:57 | bisection over a strictly increasing edge vector finds the same bin as the edge count |
| Histogram.BinOf | src/LokiHist.C:116-118 | a point gets one bin per axis, each within that axis' underflow-to-overflow range |
| Histogram.Empty | src/LokiHist.C:47-48 | a freshly booked histogram with squared-weight tracking has every cell empty and no entries |
| Histogram.Unit | src/LokiHist.C:47-57 | one fill of weight w adds w to the weight sum, w*w to the squared-weight sum and one entry |
| Histogram.FillCell | src/LokiHist.C:57 | a fill adds its contribution to its own cell, counts one more entry and keeps name, binning and squared-weight tracking |
| Histogram.FillCellAt | src/LokiHist.C:57 | a fill touches its own cell and no other |
| Histogram.FillCellKeeps | src/LokiHist.C:54-58 | "cell k holds base plus c" stays true across a fill, with the fill's contribution joining c when it lands in k |
| Histogram.FillValid | src/LokiHist.C:57 | filling keeps a histogram well formed |
| Histogram.Fill | src/LokiHist.C:57 | a fill at a point adds w, w*w and one entry to the cell under the point, one entry to the total, and leaves every other cell, the name and the binning alone |
| Histogram.SumCells | loki/core/process.py:483 | the cell-wise sum has exactly the cells of either operand |
| Histogram.SumCellsAt | loki/core/process.py:483 | each cell of the sum is the sum of the two operands' cells |
| Histogram.Add | loki/core/process.py:483 | merging keeps the target's name and binning and adds the entry counts |
| Histogram.AddAt | loki/core/process.py:483 | every cell of a merge is the sum of the two histograms' cells |
| Histogram.AddValid | loki/core/process.py:483 | merging two well formed histograms of the same binning gives a well formed one |
| Histogram.Scale | loki/core/process.py:482 | scaling keeps name, binning and entry count |
| Histogram.ScaleAt | loki/core/process.py:482 | scaling by c multiplies each cell's weight sum by c and its squared-weight sum by c*c |
| Histogram.ScaleValid | loki/core/process.py:482 | scaling keeps a histogram well formed |
| Histogram.AddCommutes | loki/core/process.py:479-483 | merging per-file outputs in either order gives the same contents and entry count |
| Histogram.AddAssociates | loki/core/process.py:479-483 | the grouping of successive merges does not change the contents |
| Histogram.FillAddCommutesAtKey | src/LokiHist.C:57 | in the filled cell, filling before a merge and filling after it agree |
| Histogram.FillAddCommutesAtOther | src/LokiHist.C:57 | in every other cell, filling before a merge and filling after it agree |
| Histogram.FillAddCommutes | src/LokiHist.C:57 | a fill may land before or after a merge of worker outputs without changing contents or entry count |
| Histogram.ScaleAddDistributes | loki/core/process.py:482-483 | scaling a merge equals merging the scaled parts |
| Histogram.AddToEmpty | loki/core/process.py:468-483 | adding one output to a freshly booked histogram of the same binning reproduces its contents and entry count |
| LokiHist.Hist1D | src/LokiHist.C:26-42 | a 1D definition keeps its hash, expression, edges, selection and weight, has one axis, and starts unbooked and unbound |
| LokiHist.Hist2D | src/LokiHist.C:77-98 | a 2D definition keeps its hash, two expressions with their edges, selection and weight, and starts unbooked and unbound |
| LokiHist.Hist3D | src/LokiHist.C:140-166 | a 3D definition keeps its hash, three expressions with their edges, selection and weight, and starts unbooked and unbound |
| LokiHist.DefaultsAreEmpty | src/LokiHist.h:44-120 | a definition made without selection or weight has the empty text for both |
| LokiHist.Init | src/LokiHist.C:44-50 | booking creates a histogram named by the hash, with squared weights tracked and no content, unless one is already booked, in which case nothing changes |
| LokiHist.InitIdempotent | src/LokiHist.C:46 | booking twice is the same as booking once |
| LokiHist.InitBinning | src/LokiHist.C:171-176 | the booked histogram has one axis per expression, with that expression's edges and edges-minus-one bins |
| LokiHist.Point | src/LokiHist.C:186-188 | the point of a slot has one coordinate per axis formula, each that formula's value at the slot |
| LokiHist.FillSlots | src/LokiHist.C:54-58 | filling slots 0 to n-1 keeps the booked histogram's name, binning and squared-weight tracking |
| LokiHist.Fill | src/LokiHist.C:52-59 | the per-slot loop gives the same histogram as the reference fill of slots 0 to n-1 |
| LokiHist.Selected | src/LokiHist.C:55 | the number of selected slots among the first n is at most n |
| LokiHist.FillEntries | src/LokiHist.C:54-58 | a fill of n slots gains exactly as many entries as slots selected |
| LokiHist.NoSelectionSelectsAll | src/LokiHist.C:55 | without a selection formula every one of the n slots is filled |
| LokiHist.SkippedSlot | src/LokiHist.C:55 | a slot is skipped exactly when a selection formula exists and evaluates to 0 there |
| LokiHist.FillContent | src/LokiHist.C:54-58 | each cell after a fill is its content before plus the contribution of the selected slots whose point falls in it, weighted by the weight formula or 1.0 |
| LokiHist.UnweightedContribution | src/LokiHist.C:56 | without a weight formula every fill weighs exactly 1.0, so a cell's weight sum and squared-weight sum both equal its entry count |
| LokiHist.FillReadsOnlyPrefix | src/LokiHist.C:54 | two events that agree on every formula at slots 0 to n-1 fill a histogram alike |
| LokiSelector.GetFormula | src/LokiSelector.h:128-141 | the empty text gets no formula; any other text gets the formula already held for it, or a new one that is then held |
| LokiSelector.GetFormulaStable | src/LokiSelector.h:132-140 | asking again for a text gives the same formula and creates nothing |
| LokiSelector.GetFormulaDistinct | src/LokiSelector.h:132-135 | two different texts never share a formula |
| LokiSelector.BindTexts | src/LokiSelector.h:161-165 | binding a list of texts yields one formula slot per text, in order, and holds a formula for each non-empty text |
| LokiSelector.BoundToExtends | src/LokiSelector.h:132-140 | texts bound against a map stay bound to the same formulas in any map that extends it |
| LokiSelector.BindHist | src/LokiSelector.h:166-171 | one histogram is bound to the formulas for its axis expressions, then its selection, then its weight, its definition unchanged |
| LokiSelector.BindList | src/LokiSelector.h:161-178 | binding a list of histograms keeps their number and only adds formulas to the map |
| LokiSelector.BindListValid | src/LokiSelector.h:132-135 | binding a list keeps the map one formula per text |
| LokiSelector.BindListKeys | src/LokiSelector.h:161-178 | after binding a list the map holds exactly the old texts and the list's non-empty texts |
| LokiSelector.BindListSameDef | src/LokiSelector.h:161-178 | binding changes only the formulas of each histogram |
| LokiSelector.BindListBound | src/LokiSelector.h:161-178 | every histogram of a bound list holds the map's formulas for its own texts |
| LokiSelector.NewSelector | src/LokiSelector.h:82-87 | a new selector has no histograms, inputs, outputs or formulas, and its formula map is well formed |
| LokiSelector.AddHist | src/LokiSelector.C:36-49 | adding a histogram appends it to the list of its own dimensionality and leaves the other lists alone |
| LokiSelector.Begin | src/LokiSelector.C:51-66 | the input list holds the 1D histograms, then the 2D ones, then the 3D ones, in their order, and nothing else changes |
| LokiSelector.OfDim | src/LokiSelector.C:84-88 | picking the inputs of one dimensionality keeps at most all of them, each of that dimensionality |
| LokiSelector.BeginSlaveBeginRoundTrip | src/LokiSelector.C:57-104 | streaming the histograms through the input list and rebuilding them gives back each list in order, booked |
| LokiSelector.AddHistSorted | src/LokiSelector.C:36-49 | every histogram added through AddHist keeps each list holding only histograms of its dimensionality |
| LokiSelector.InitFormulas | src/LokiSelector.h:142-196 | initialising for a tree keeps the three lists' lengths, the inputs, outputs and file name, and starts from an empty formula map |
| LokiSelector.InitFormulasKeys | src/LokiSelector.h:152-178 | after initialisation the map holds one formula for each non-empty text of the registered histograms and nothing else |
| LokiSelector.InitFormulasFresh | src/LokiSelector.h:152-158 | after initialisation texts and formulas correspond one to one and no formula survives from before |
| LokiSelector.InitFormulasBound | src/LokiSelector.h:161-178 | after initialisation each histogram holds the map's formulas for its own texts, none for an empty selection or weight |
| LokiSelector.ReadyAfterInit | src/LokiSelector.h:161-178 | booking and then binding leaves a definition ready to fill |
| LokiSelector.FillOne | src/LokiSelector.C:128-130 | filling one histogram of a ready selector keeps its definition and adds one entry per selected slot |
| LokiSelector.Process | src/LokiSelector.C:106-133 | one event fills every registered histogram with the same slot count, leaving every histogram ready and the formulas, outputs and file name unchanged |
| LokiSelector.ProcessAll | src/LokiSelector.C:106-133 | the tree loop leaves every histogram ready and keeps the lists' lengths, the outputs and the file name |
| LokiSelector.Written | src/LokiSelector.C:143-158 | at most one histogram is written per output object; objects that are not histograms are skipped |
| LokiSelector.WrittenRefs | src/LokiSelector.C:92-103 | the outputs registered for one list write that list's histograms in order |
| LokiSelector.AddAll | src/LokiSelector.C:36-49 | registering histograms one by one changes neither outputs nor formulas |
| LokiSelector.AddAllLists | src/LokiSelector.C:36-49 | registering histograms one by one appends to each list, in order, the histograms of its dimensionality, and keeps every list holding only its own dimensionality |
| LokiSelector.WrittenAppend | src/LokiSelector.C:151-155 | writing two runs of output objects writes the first run's histograms, then the second's |
| LokiSelector.OfDimAppend | src/LokiSelector.C:84-88 | picking one dimensionality out of two concatenated input runs is picking it out of each, in order |
| LokiSelector.ProcessAllNames | src/LokiSelector.C:106-133 | running the event loop changes no histogram's name |
| LokiSelector.ProcessAllEntries | src/LokiSelector.C:126-130 | over a run each histogram gains one entry per selected slot of every event, all histograms seeing the same slot counts |
| LokiSelector.SelectedSameFormulas | src/LokiHist.C:55 | the selected slot count depends only on the selection formula |
| LokiSelector.SetupBooks | src/LokiSelector.C:92-103 | set-up books each registered definition, keeping it otherwise |
| LokiSelector.SetupBinds | src/LokiSelector.h:161-178 | set-up binds each definition to the map's formulas for its texts |
| LokiSelector.InitFormulasCovers | src/LokiSelector.h:161-178 | initialisation creates a formula for every non-empty text of every definition |
| LokiSelector.SetupCovers | src/LokiSelector.h:161-178 | set-up creates a formula for every non-empty text of every definition |
| LokiSelector.SetupReadyAt | src/LokiSelector.C:92-94 | after set-up one histogram is booked under its hash and ready to fill |
| LokiSelector.SetupOutputs | src/LokiSelector.C:92-103 | after set-up the output list refers to the 1D, 2D and 3D lists in order |
| LokiSelector.SetupReady | src/LokiSelector.C:92-103 | after set-up every histogram is ready to fill |
| LokiSelector.SetupNames | src/LokiSelector.C:92-103 | after set-up every histogram is booked under its hash |
| LokiSelector.WrittenList | src/LokiSelector.C:152-155 | the references to one whole list write that list's histograms |
| LokiSelector.TerminateWritesLists | src/LokiSelector.C:143-158 | when the outputs refer to the three lists in order, the file receives the 1D, 2D and 3D histograms in that order |
| LokiSelector.ProcessAllKeepsSetup | src/LokiSelector.C:106-133 | the event loop keeps booking, binding and outputs as set-up left them |
| LokiSelector.WrittenNames | src/LokiSelector.C:152-155 | the histograms written are named, in order, by the hashes of the registered definitions |
| LokiSelector.Query | src/LokiSelector.C:51-158 | a whole query writes exactly one histogram per registered definition, named by its hash, 1D ones first, then 2D, then 3D |
| LokiSelector.SlaveBegin | src/LokiSelector.C:68-104 | the lists are rebuilt from the inputs, one per dimensionality and as long as the inputs of that dimensionality; the formula map is emptied; one output is appended per histogram after the outputs already there |
| LokiSelector.InitAll | src/LokiSelector.C:92-103 | booking a list keeps its length |
| LokiSelector.FillAll | src/LokiSelector.C:128-130 | every histogram of a list is filled with the same slot count, each on its own |
| LokiSelector.Resolve | src/LokiSelector.C:152-154 | an output that is not a histogram writes nothing; one that does is the booked histogram at its position in the list of its dimensionality |
| LokiSelector.Terminate | src/LokiSelector.C:143-158 | the file receives at most one histogram per output object |
| Process.NCores | loki/core/process.py:343-345 | on a machine with at least one core the worker count lies between one and the core count; a positive setting within the core count is used as is, a negative one leaves that many cores free, and an unset or zero one means two on a machine with two or more cores |
| Process.Discretize | loki/core/process.py:190-196 | discretizing keeps an unset fraction unset and turns any set one into a value of at least 0.001 |
| Process.DiscretizeIdempotent | loki/core/process.py:193 | discretizing an already discretized fraction changes nothing, given a rounding that is itself idempotent |
| Process.EventsToProcess | loki/core/process.py:280-281 | without a fraction a job takes every event of its file; with a fraction in (0, 1] it takes between none and all of them |
| Process.CardUnion | loki/core/process.py:253 | the union of two container sets is at least as large as either |
| Process.StepContainers | loki/core/process.py:237-244 | one `&` or `*` step fails exactly when its operands use more than one multi-valued container between them, and otherwise uses the union of theirs |
| Process.ChainContainers | loki/core/process.py:236-244 | two steps in a row fail exactly when the three operands together use more than one multi-valued container, and otherwise use the union of theirs |
| Process.SelContainers | loki/core/process.py:236-238 | the selection fails exactly when the default cut, the histogram's cut and the sample's cut use more than one multi-valued container between them, and otherwise uses their union |
| Process.SelPasses | loki/core/process.py:236-238 | an event passes the combined selection exactly when it passes the default cut and each given cut |
| Process.WeightContainers | loki/core/process.py:241-244 | with weighting off the weight is the default weight alone; with it on the weight fails exactly when its parts use more than one multi-valued container, and otherwise uses their union |
| Process.WeightProduct | loki/core/process.py:241-244 | with weighting on, the combined weight is the product of the default weight and each given weight |
| Process.EffectiveSel | loki/core/process.py:236-238 | without a histogram or sample cut the selection is the default cut; with one, a successful selection is a `Cuts` |
| Process.EffectiveWeight | loki/core/process.py:241-244 | with weighting off, or no histogram or sample weight, the weight is the default weight; otherwise a successful weight is a `Weights` |
| Process.HashFrac | loki/core/process.py:840 | the hash records the event fraction when it is set and nonzero, and 1.0 otherwise |
| Process.HashFullFraction | loki/core/process.py:840-842 | processing all events, a fraction of 0 and a fraction of 1 give the same hash, so they share cached histograms |
| Process.HashSeesFraction | loki/core/process.py:841-842 | two fractions whose per-mille renderings differ give different hashes, whatever else agrees |
| Process.HistHash | loki/core/process.py:790-844 | the hashed text starts with the x-axis part and ends with the event-fraction tag `EvFrac` and its per-mille rendering |
| Process.AxisCfgOf | loki/core/process.py:316-321 | an axis blueprint exists exactly when the axis does, and carries that axis' edges and expression |
| Process.CfgOf | loki/core/process.py:322-328 | a histogram blueprint carries the histogram's hash, its three axis blueprints and the selection and weight expressions |
| Process.Lookup | loki/core/process.py:563-564 | a blueprint is found under a hash exactly when one is stored under it, and the one found has that hash |
| Process.AddCfg | loki/core/process.py:557-564 | adding a blueprint keeps the rest of the selector blueprint, keeps every stored blueprint, stores the new one only when its hash is free, and keeps hashes unique |
| Process.LookupAppend | loki/core/process.py:563-564 | looking up in a list extended by one blueprint finds the earlier blueprint first, then the new one |
| Process.AddCfgIdempotent | loki/core/process.py:563 | adding the same blueprint twice is adding it once |
| Process.AddCfgOther | loki/core/process.py:563-564 | adding a blueprint leaves what is stored under every other hash |
| Process.Dispatch | loki/core/process.py:600-618 | a blueprint configures no histogram exactly when it lacks x, or has z without y; otherwise a fresh, unbound definition with its hash, selection and weight, three-dimensional exactly when z is given, at least two-dimensional exactly when y is given, with each axis' expression and edges |
| Process.Build | loki/core/process.py:600-618 | the definitions built are at most one per blueprint, each well shaped |
| Process.BuildMembers | loki/core/process.py:600-618 | a definition is built exactly when some blueprint dispatches to it |
| Process.EventLimit | loki/core/process.py:580-583 | a job's event limit is its event count, or the tree's maximum when that count is zero |
| Process.ConfigureSelector | loki/core/process.py:568-618 | the configured selector writes to the job's temporary file and its list for each dimension is the built definitions of that dimension, in order |
| Process.AddAllName | loki/core/process.py:599-618 | registering definitions keeps the selector's output file name |
| Process.ConfiguredHas | loki/core/process.py:618 | every blueprint that dispatches is registered with the selector, in the list of its dimension |
| Process.OfDimHas | src/LokiSelector.C:36-49 | a registered definition is among the definitions of its own dimension |
| Process.MvUnionHas | loki/core/process.py:253 | the union of the multi-valued containers of a list includes those of each member |
| Process.GroupKeyCovers | loki/core/process.py:251-258 | every variable a component reads, axes, selection and weight, uses only containers of its job group |
| Process.GrowsTrans | loki/core/process.py:259-289 | growth of the job table is transitive |
| Process.CoveredGrows | loki/core/process.py:259-289 | a component covered by a job stays covered as the table grows |
| Process.EntriesCoveredGrows | loki/core/process.py:259-289 | the components of a list of entries stay covered as the table grows |
| Process.FindSlot | loki/core/process.py:275 | the job found for a group and file has that group and file, and none is found exactly when no job has both |
| Process.Place | loki/core/process.py:275-289 | placing a component yields a job with its group and file, and only grows the table |
| Process.PlaceNew | loki/core/process.py:275-287 | a new job takes the next position and temporary file and starts empty, with the tree name and the (fractional) event count of the sample that first needs the file |
| Process.PlaceInv | loki/core/process.py:259-289 | placing keeps the job table consistent |
| Process.FileStep | loki/core/process.py:301-331 | one component on one file carries the histogram's hash and is read from the cache exactly when caching is on and the job's cache holds that hash |
| Process.FileStepFacts | loki/core/process.py:301-331 | one file step keeps the table consistent, only grows it, leaves its component covered, and reads from the cache only under the file's own cache path |
| Process.FilesStep | loki/core/process.py:264-331 | a sample yields one component per file, in order, each hashed for its own file |
| Process.FilesStepFacts | loki/core/process.py:264-331 | the file steps of one sample keep the table consistent, only grow it, and leave every component covered |
| Process.SampleStep | loki/core/process.py:230-258 | a sample without files gives no entry; otherwise it gives an empty entry when its variables span two multi-valued containers, and one component per file otherwise |
| Process.SampleStepFacts | loki/core/process.py:230-331 | a sample step keeps the table consistent, only grows it, and leaves every component covered |
| Process.HistStepFacts | loki/core/process.py:227-331 | all samples of a histogram keep the table consistent, only grow it, and leave every entry covered |
| Process.HistStep | loki/core/process.py:230-233 | a histogram gets at most one entry per final daughter sample |
| Process.AllStep | loki/core/process.py:226-331 | every component histogram gets its list of entries, in order |
| Process.AllStepFacts | loki/core/process.py:226-331 | the whole pass keeps the table consistent, only grows it, and leaves every histogram's entries covered |
| Process.KeysOf | loki/core/process.py:334-335 | every job's group is among the group keys |
| Process.InGroup | loki/core/process.py:334-335 | the jobs listed for a group are exactly its jobs that have at least one blueprint |
| Process.Flatten | loki/core/process.py:334-335 | flattening lists exactly the non-empty jobs of the listed groups |
| Process.Selectors | loki/core/process.py:334-335 | the jobs that run are exactly the jobs left with at least one blueprint |
| Process.GetSelectors | loki/core/process.py:199-336 | preparing jobs gives one list of entries per component histogram |
| Process.GetSelectorsCovers | loki/core/process.py:314-331 | every part not read from the cache is written by one of the jobs that run, which holds a blueprint under its hash |
| Process.GetSelectorsDistinct | loki/core/process.py:275-287 | the jobs that run write to distinct temporary files, and each caches under its own input file's path |
| Process.SampleScale | loki/core/process.py:472-476 | no scale is applied with weighting off or without a scaler; otherwise the scaler's scale, divided by the event fraction when one is set |
| Process.Scaled | loki/core/process.py:482 | scaling a part keeps its binning |
| Process.ScaledAt | loki/core/process.py:482 | each cell of a scaled part is the part's cell times the scale, or unchanged without one |
| Process.MergeParts | loki/core/process.py:479-484 | adding a sample's parts keeps the target's binning and name |
| Process.MergePartsAt | loki/core/process.py:479-484 | each cell after adding a sample's parts is the target's cell plus the scaled parts' cells |
| Process.PartsCellScaled | loki/core/process.py:482-483 | parts scaled by c contribute c times their plain sum |
| Process.Finalize | loki/core/process.py:462-485 | merging all samples' parts keeps the booked histogram's binning and name |
| Process.FinalizeAt | loki/core/process.py:466-484 | each cell after merging is the booked cell plus every sample's scaled parts |
| Process.FinalizeFromEmpty | loki/core/process.py:468-484 | merged into a freshly booked histogram, each cell is exactly the sum over samples of their parts, each sample's parts scaled by its scale |
| Process.UnweightedSum | loki/core/process.py:472 | without weights nothing is scaled: a cell is the plain sum of the parts, whatever the scalers say |
| Process.UnscaledSum | loki/core/process.py:472-476 | samples without a scaler are added as they are, also with weights |
| Process.CacheSelector | loki/core/process.py:412-457 | of a job's histograms, no more are copied to the cache than there are, and the second count is the number of histograms |
| Process.CountTrue | loki/core/process.py:437-443 | the number copied never exceeds the number tried |
| Process.TallyAsWritten | loki/core/process.py:386-388 | as written, the running tallies together grow by the job's histogram count plus the number copied |
| Process.Tally | loki/core/process.py:386-388 | as intended, the total grows by the job's histogram count, and the cached tally never overtakes the total |
| Process.TallySwapped | loki/core/process.py:386-388 | for a job of two histograms, one of them copied, the tallies as written report one total and two cached, while as intended they report two total and one cached |
| DeprProcess.NCores | loki/core/_depr_process.py:145-150 | the worker count lies between one and the core count; an unset or zero setting means every core, a positive one within the core count is used as is, and a negative one leaves that many cores free |
| DeprProcess.NCoresAgree | loki/core/_depr_process.py:145-150 | for any set, nonzero core setting the deprecated and the current processors choose the same worker count |
| DeprProcess.CreateJob | loki/core/_depr_process.py:325-343 | a new job's id is the number of jobs so far, it is appended to the job table, and ids stay sequential |
| DeprProcess.SpawnFiles | loki/core/_depr_process.py:166-169 | a sample spawns one job per file, in file order, with consecutive new ids, all for the same histogram, keeping the earlier jobs |
| DeprProcess.SpawnHist | loki/core/_depr_process.py:161-169 | a histogram spawns jobs with consecutive new ids, all for that histogram, keeping the earlier jobs and sequential ids |
| DeprProcess.JobNamesDistinct | loki/core/_depr_process.py:411 | distinct jobs draw into distinctly named histograms |
| DeprProcess.VarStrSplit | loki/core/_depr_process.py:462-481 | splitting the draw string at ':' gives back the axis expressions, z first, as long as none of them contains ':' |
| DeprProcess.OptStr | loki/core/_depr_process.py:505-515 | the draw option is "COL" exactly for 2D histograms, and empty otherwise |
| DeprProcess.WeightStrShape | loki/core/_depr_process.py:484-502 | the weight string is the combined selection and the combined weight, each in parentheses, joined by '*' |
| DeprProcess.WeightVarIsProduct | loki/core/_depr_process.py:497-498 | whenever the weight expression can be built, both the combined selection and the combined weight can, and the expression is their product |
| DeprProcess.Initialize | loki/core/_depr_process.py:397-441 | an initialised job is named by its id, scaled like the current processor scales a sample, takes the same fraction of events, and draws with "COL" exactly for 2D histograms; a histogram without an x axis fails |
| DeprProcess.MergeJobs | loki/core/_depr_process.py:316-322 | merging job outputs keeps the booked histogram's binning and name |
| DeprProcess.MergeJobsAt | loki/core/_depr_process.py:233-240 | each cell after the merge is the booked cell plus every job's output, scaled by its scale when set and nonzero |
| DeprProcess.MergeFromEmpty | loki/core/_depr_process.py:233-240 | merged into a freshly booked histogram, each cell holds the scaled sum of the job outputs |
| Vars.NameSpellings | loki/core/var.py:209-220 | for a container variable the name "cont_name" and the serialised "cont.name" have the same length and differ only in the separator |
| Vars.GetNameShape | loki/core/var.py:209-213 | the name ends in the variable's own name; without a container it is that name, with one it is the container's name, '_' and the variable's name |
| Vars.SerializeShape | loki/core/var.py:311-315 | the serialised name ends in the variable's own name; without a container it is that name, with one it is the container's name, '.' and the variable's name |
| Vars.NewBranch | loki/core/var.py:216-220 | a `Var` keeps its tree branch name at the end, under its container's prefix; any other variable without a container is written under its own name |
| Vars.MultiValued | loki/core/var.py:292-297 | a container is multi-valued in a set exactly when it is present and not single-valued |
| Vars.MvInConts | loki/core/var.py:292-297 | every container reported is multi-valued and used by the variable; a variable without inputs reports none exactly when it has no container or a single-valued one |
| Vars.MultiValuedUnion | loki/core/var.py:285-297 | the multi-valued containers of a union are the union of each side's |
| Vars.LeafContainers | loki/core/var.py:285 | a variable without inputs uses exactly its own container, and is multi-valued exactly when that container exists and is not single-valued |
| Vars.PairContainers | loki/core/var.py:286-289 | a variable of two inputs uses their containers and their multi-valued containers, combined |
| Vars.Make | loki/core/var.py:66-98 | creating a variable fails with a VarError exactly when it has inputs from more than one multi-valued container, and otherwise keeps its name, container and kind |
| Vars.MadeSingleGroup | loki/core/var.py:335-344 | every variable with inputs that is created uses at most one multi-valued container |
| Vars.And | loki/core/var.py:365-371 | `v & None` is v; otherwise a successful result is a cut of v and the other, in that order |
| Vars.Mul | loki/core/var.py:374-380 | `v * None` is v; otherwise a successful result is a weight of v and the other, in that order |
| Vars.AndContainers | loki/core/var.py:335-380 | `&` and `*` fail exactly when together the operands use two multi-valued containers, and otherwise use the union of theirs |
| Vars.AndMeaning | loki/core/var.py:673-675 | `a & b` passes exactly when both a and b pass |
| Vars.MulMeaning | loki/core/var.py:765-767 | `a * b` evaluates to the product of a and b |
| Vars.Eval | loki/core/var.py:673-677 | a `Cuts` variable evaluates to 0 or 1 |
| Vars.Paren | loki/core/var.py:674 | each input expression is wrapped in parentheses, one per input |
| Vars.JoinSnoc | loki/core/var.py:675 | joining one more piece appends the separator and the piece |
| Vars.ParenSnoc | loki/core/var.py:674 | parenthesising one more text appends that text in parentheses |
| Vars.CombineSnoc | loki/core/var.py:673-675 | combining one more input appends the operator and the input in parentheses |
| Vars.JoinContains | loki/core/var.py:675 | every joined piece appears in the join |
| Vars.CombineContains | loki/core/var.py:673-675 | every input expression appears, in parentheses, in the combined expression |
| Vars.Format | loki/core/var.py:586 | filling an expression template fails exactly when it references an input past the last one |
| Vars.Texts | loki/core/var.py:586 | the expressions of a list of inputs come one per input |
| Vars.Text | loki/core/var.py:424-441 | the expression of a leaf or a static expression always exists; a `Cuts` without inputs has the expression "1" |
| Vars.TextsPair | loki/core/var.py:674 | the expressions of two inputs are each one's expression, in order |
| Vars.CombinePair | loki/core/var.py:674-675 | combining two expressions gives "(x)op(y)" |
| Vars.AndText | loki/core/var.py:673-675 | the expression of `a & b` is "(a)&&(b)" |
| Vars.MulText | loki/core/var.py:765-767 | the expression of `a * b` is "(a)*(b)" |
| Vars.ViewNames | loki/core/var.py:201 | the view names are listed one per view, in order |
| Vars.FirstNamed | loki/core/var.py:242-246 | the view found under a name is one of the views and has that name, and none is found exactly when no view has it |
| Vars.AddView | loki/core/var.py:154-206 | adding a view without edges and without all of nbins, xmin and xmax fails with a ValueError; otherwise only the view list changes, either not at all or by one view appended at the end, and view names stay unique |
| Vars.GetView | loki/core/var.py:223-246 | a variable without views has no view to give; without a name the first view is given; a view given for a name has that name |
| Vars.AddViewThenGet | loki/core/var.py:197-204 | a view added under a fresh name can be looked up by that name right away and carries the edges it was given |
| Vars.FirstNamedAppend | loki/core/var.py:242-246 | a view appended under a fresh name is the first view of that name |
| Vars.AddViewDuplicate | loki/core/var.py:200-202 | adding a view whose name is taken leaves the variable unchanged |
| Vars.GetVar | loki/core/var.py:1110-1117 | the variable found in a container is one of its variables with that name, and none is found exactly when no variable has it |
| Vars.FindVariable | loki/core/var.py:1337-1356 | a name with two or more '.' finds nothing, and a name without '.' finds the global variable of that name, if any |
| Vars.FindSerialized | loki/core/var.py:1349-1353 | a container variable is found by "cont.name" when neither part contains '.' and it is the first variable of its name |
| Vars.FindView | loki/core/var.py:1382-1404 | a view name with two or more ':' finds nothing |
| Vars.FindViewNamed | loki/core/var.py:1394-1399 | a view found by "var:view" has the name after the colon |
| Vars.FindViewOfGlobal | loki/core/var.py:1394-1399 | a global variable's view is found by "name:view" |
| Vars.DefaultCut | loki/core/var.py:1474-1479 | without a registered "nocut" variable the default cut is the constant expression "1" with no inputs |
| Vars.DefaultWeight | loki/core/var.py:1465-1470 | without a registered "noweight" variable the default weight is the constant expression "1" with no inputs |
| HistUtils.Bins | loki/core/histutils.py:27-38 | uniform binning has nbins + 1 edges |
| HistUtils.BinsEnds | loki/core/histutils.py:38 | the edges start at xmin and end at xmax |
| HistUtils.BinsUniform | loki/core/histutils.py:38 | every bin has width (xmax - xmin) / nbins |
| HistUtils.BinsIncreasing | loki/core/histutils.py:38 | with xmin < xmax the edges are strictly increasing, so they form a valid axis |
| HistUtils.FRange | loki/core/histutils.py:60-67 | the generated values are x1, x1 + x, x1 + 2x, ..., each below x2, and the next one would reach x2 |
| HistUtils.UpperBin | loki/core/histutils.py:105-107 | the upper bin of a range is the bin of xmax, or the one before it |
| HistUtils.IntegralRange | loki/core/histutils.py:87-110 | a missing lower bound starts the range at bin 1 and a missing upper bound ends it at the last regular bin, leaving out underflow and overflow |
| HistUtils.ZeroLowerBoundIgnored | loki/core/histutils.py:103 | on the axis [-1, 0, 1] a lower bound of 0.0 starts the range at bin 1 as written, but at bin 2, the bin [0, 1), when the bound is honoured |
| HistUtils.FindBinMonotone | loki/core/histutils.py:103-106 | a larger value never lands in an earlier bin |
| HistUtils.UpperBinAtEdge | loki/core/histutils.py:91 | a range ending exactly on an edge stops at the bin whose upper edge it is, so the bin starting there is left out |
| HistUtils.IntegralRangeCovers | loki/core/histutils.py:87-110 | every value from xmin up to but excluding xmax falls in a bin of the range |
| HistUtils.IntegralRangeAsWritten | loki/core/histutils.py:101-107 | as written, a missing bound and a bound of 0.0 both give bin 1 or the last regular bin; any other bound gives the intended range's bin |
| HistUtils.Integral | loki/core/histutils.py:109 | a reversed bin range sums to 0, and bins with non-negative content sum to a non-negative integral |
| HistUtils.Sizes | loki/core/histutils.py:128-138 | there is one bin count per axis |
| HistUtils.SumAxisIntegral | loki/core/histutils.py:137-138 | in 1D, summing the first b bins along the axis is the ranged integral over bins 0 to b-1 |
| HistUtils.FullIntegral1D | loki/core/histutils.py:120-138 | in 1D the full integral is the ranged integral from the underflow through the overflow |
| HistUtils.SumBoxScale | loki/core/histutils.py:157 | scaling a histogram by c scales every box sum by c |
| HistUtils.SumAxisScale | loki/core/histutils.py:157 | scaling a histogram by c scales every partial axis sum by c |
| HistUtils.Normalize | loki/core/histutils.py:150-157 | normalising keeps name, binning and entry count, and leaves a histogram of zero area untouched |
| HistUtils.NormalizeUnit | loki/core/histutils.py:150-157 | a normalised histogram of nonzero area has area exactly one |
| HistUtils.MergeCellsAt | loki/core/histutils.py:351-361 | bins 0 to n of the merge hold the sum of both histograms, all other bins the longer one's content |
| HistUtils.Shorter | loki/core/histutils.py:342-347 | the histogram merged into the longer one is a 1D histogram |
| HistUtils.MergeDiff | loki/core/histutils.py:325-362 | the merge has the binning and name of the histogram with more bins |
| HistUtils.MergeDiffAt | loki/core/histutils.py:351-361 | the overlapping bins hold the sum of both histograms; the extended bins keep the longer one's content, so the shorter one's overflow is not carried over |
| HistUtils.SumStep | loki/core/histutils.py:316-320 | one step of the running sum yields a 1D histogram whether it adds or merges |
| HistUtils.SumHists | loki/core/histutils.py:305-321 | the sum of a list is None exactly when the list is empty, and a 1D histogram otherwise |
| HistUtils.SumHistsCells | loki/core/histutils.py:305-321 | for histograms of one binning the sum keeps the first one's binning and each bin is the sum of that bin over the list |
| HistUtils.GraphsCompatible | loki/core/histutils.py:434-447 | two graphs are compatible exactly when they have the same number of points and the same x values, point by point |
| HistUtils.GetGraphPoint | loki/core/histutils.py:451-462 | the result is the first index holding the x value, and None exactly when no point has it |
| HistUtils.Xs | loki/core/histutils.py:902 | there is one x value per point |
| HistUtils.Ys | loki/core/histutils.py:903 | there is one y value per point |
| HistUtils.Tile | loki/core/histutils.py:906 | a list repeated m times has m times the length |
| HistUtils.Fill | loki/core/histutils.py:905 | a value repeated n times gives n copies of it |
| HistUtils.Spread | loki/core/histutils.py:904-905 | repeating each value n times gives n entries per value |
| HistUtils.TileAt | loki/core/histutils.py:906 | element q*len + r of a list repeated m times is the list's element r |
| HistUtils.SpreadAt | loki/core/histutils.py:905 | element q*n + r of the spread is value q |
| HistUtils.Graph2D | loki/core/histutils.py:900-911 | the 2D graph has one point per pair of original point and y value |
| HistUtils.Graph2DAt | loki/core/histutils.py:902-908 | point q*n + r of the 2D graph is point r of the graph placed at the q-th y value, with the graph's y as its z |
| HistUtils.NewHist | loki/core/histutils.py:929-989 | booking fails with a ValueError exactly when z edges are given without y edges; otherwise the histogram is named as asked, tracks squared weights, has no entries and one axis per given edge list, in order |
| HistUtils.NewHistEmpty | loki/core/histutils.py:929-989 | a booked histogram has every cell empty |
| HistUtils.HistArgsOf | loki/core/histutils.py:993-1024 | the arguments fail exactly when no name is given and z comes without y; a given name is kept, the x edges and title come from the x view, and y and z edges exist exactly when those views do |
| HistUtils.DefaultNamePrefix | loki/core/histutils.py:1018-1023 | a default name starts with "h_" for 1D, "h2" for 2D and "h3" for 3D |
| HistUtils.DefaultNamesDistinct | loki/core/histutils.py:1018-1023 | default names of histograms of different dimension never collide |
| Drawables.ComponentHists | loki/core/hist.py:147-158 | every collected component is a `Hist`; a `Hist` yields one element (itself) |
| Drawables.ComponentsOfAppend | loki/core/hist.py:155-158 | the component list of concatenated sub-drawables is the concatenation of their lists, in declaration order |
| Drawables.ComponentHistsIdempotent | loki/core/hist.py:254-256 | collecting components of a component list returns it unchanged, since each `Hist` returns `[self]` |
| Drawables.ComponentsOfHas | loki/core/hist.py:155-158 | a histogram directly under a drawable is among its components |
| Drawables.NewHist | loki/core/hist.py:225-231 | a new `Hist` is a stackable leaf without object whose component list is itself |
| Drawables.HistDrawOptDimension | loki/core/hist.py:192-198 | a histogram draws with "COL" exactly when its dimension is 2, and with "" exactly when it is 1 |
| Drawables.SetRootObj | loki/core/hist.py:108-119 | a null object leaves the drawable unchanged; a non-null one becomes its object and makes it valid |
| Drawables.SetRootObjIdempotent | loki/core/hist.py:108-119 | setting the same object twice equals setting it once |
| Drawables.ParseOpRoundTrip | loki/core/hist.py:303-304 | exactly "+", "-", "*", "/" are accepted, each parses to the operator that prints as itself |
| Drawables.NewProxy | loki/core/hist.py:293-304 | an empty input list raises; otherwise the proxy exists iff the operator is allowed, is stackable and takes the first input's draw option |
| Drawables.ProxyComponents | loki/core/hist.py:298-301 | a proxy's components are its inputs' components in input order |
| Drawables.BuildProxy | loki/core/hist.py:325-343 | a built proxy keeps the first input's binning |
| Drawables.AdditiveAccepts | loki/core/hist.py:329-342 | `+` and `-` never raise and produce an object iff every operand has the first one's bin count |
| Drawables.TimesAccepts | loki/core/hist.py:329-342 | `*` never raises and produces an object iff every operand has the first one's bin count or a single bin |
| Drawables.DivideByEmptyScalar | loki/core/hist.py:336 | dividing by a single-bin histogram of zero integral raises |
| Drawables.AdditiveBins | loki/core/hist.py:331-332 | with equal bin counts, `+` gives bin-wise first plus the sum of the others, `-` the first minus that sum |
| Drawables.BuildProxyDrawable | loki/core/hist.py:337-343 | the proxy's object changes only to a histogram built from the inputs; on a logged error it is unchanged |
| Drawables.IncompatibleSumLeavesProxy | loki/core/hist.py:339-341 | adding an operand of a different bin count leaves the proxy without a new object |
| Drawables.ColNormPercent | loki/core/hist.py:766-776 | after column normalisation each non-zero column sums to 100; a zero column becomes zeros, errors included |
| Drawables.RowNormTransposed | loki/core/hist.py:755-765 | row normalisation equals column normalisation of the transposed matrix |
| Drawables.RowNormPercent | loki/core/hist.py:755-765 | after row normalisation each non-zero row sums to 100; a zero row becomes zeros |
| Drawables.DiagonalFraction | loki/core/hist.py:746-753 | a zero integral keeps the previous diagonal value |
| Drawables.DiagonalFractionBounded | loki/core/hist.py:746-753 | with non-negative contents the diagonal fraction lies in [0, 100] unless the previous value is kept |
| Drawables.NewRatio | loki/core/hist.py:813-821 | an owning ratio declares numerator and denominator as sub-drawables, a non-owning one none |
| Drawables.RatioComponents | loki/core/hist.py:819-821 | an owning ratio's components are the numerator's then the denominator's |
| Drawables.BuildRatio | loki/core/hist.py:824-845 | a non-owner with an invalid input is left unchanged; any new object is the division of the (rebuilt) inputs |
| Samples.AddDaughter | loki/core/sample.py:108-116 | the daughter list grows by one at the end, earlier daughters kept, the new one pointing at its parent |
| Samples.NewSample | loki/core/sample.py:54-90 | regex defaults to "*name*", tree to "CollectionTree", events to 1000000; every daughter is added with its parent set |
| Samples.DefaultRegexHasName | loki/core/sample.py:77 | the default file pattern contains the sample's name |
| Samples.FinalDaughters | loki/core/sample.py:119-131 | the final daughters are never parents, and there is at least one |
| Samples.AllFilesOfFinal | loki/core/sample.py:275-289 | all files are exactly the final daughters' files in order, so a parent's own files are ignored |
| Samples.IsActiveIff | loki/core/sample.py:291-293 | a sample is active iff some final daughter has files |
| Samples.AddDaughterTree | loki/core/sample.py:108-131 | adding a daughter appends its final daughters and files; a former leaf stops contributing its own files |
| Samples.FileNEvents | loki/core/sample.py:147-159 | a file is counted once and then served from the cache; cached entries never change |
| Samples.NEvents | loki/core/sample.py:144-146 | without a file name the total needs a file list; with one the file ends up cached |
| Samples.FilesNEventsSum | loki/core/sample.py:144-146 | with an agreeing cache the total is the sum of the per-file counts and the cache keeps agreeing |
| Samples.FilesNEventsCached | loki/core/sample.py:147-159 | asking again with the returned cache gives the same total and cache |
| Samples.FormatOkIndependent | loki/core/sample.py:374-379 | whether the regex template formats depends on the template only |
| Samples.FormatTagField | loki/core/sample.py:374-378 | a `{tag}` field after plain text is replaced by the tag |
| Samples.FormatRegex | loki/core/sample.py:370-373 | a template without braces formats to itself |
| Samples.CollapseKeepsText | loki/core/sample.py:379 | collapsing "**" to "*" removes only stars |
| Samples.CloneOne | loki/core/sample.py:368-389 | the copy is named "name_tag", keeps cross section, data flag, selection, weight and scaler, resets files, tree and events; without a template its regex is "*name_tag*" |
| Samples.Clone | loki/core/sample.py:332-395 | a clone succeeds iff its own regex formats, and is named "name_tag" |
| Samples.CloneDaughters | loki/core/sample.py:390-394 | a parent's clone has one leaf daughter per final daughter, named with the tag and pointing at the clone |
| Samples.NewScaler | loki/core/sample.py:448-457 | lumi defaults to 1.0, skim histogram to "CutFlow", bin to 2; caches start empty |
| Samples.ScalerNEvents | loki/core/sample.py:476-508 | the skim count is cached by sample name and served from the cache afterwards |
| Samples.CalcScaleFresh | loki/core/sample.py:510-520 | a first scale is lumi*xsec/nevents, or 1.0 without cross section or events |
| Samples.CalcScaleByName | loki/core/sample.py:512-520 | a later sample of the same name gets the first one's cached scale |
| Samples.CalcScale | loki/core/sample.py:510-520 | the scale returned is the one cached under the sample's name afterwards; a name already cached returns its scale and changes nothing; the luminosity is kept |
| Samples.ScaleFor | loki/core/sample.py:459-473 | a sample without a cross section fails with a TypeError, because the debug message formats it with `.3f` on every call; otherwise the scale times a set, non-zero event fraction is the cached scale, and the sample's scale and event count are cached |
| Styles.NewStyle | loki/core/style.py:45-57 | the latex name defaults to the name, the line width to 2 unless supplied, and every keyword is kept with its value |
| Styles.KeywordsAreAttrs | loki/core/style.py:55-57 | every style keyword becomes an attribute holding its value |
| Styles.Add | loki/core/style.py:78-89 | the merge of two well-formed styles is well-formed |
| Styles.AddRightBiased | loki/core/style.py:78-89 | right-hand keywords win, left-only keywords are kept, no others appear; name, latex name and draw option come from the right |
| Styles.AddIdempotent | loki/core/style.py:78-89 | adding a style to itself gives it back |
| Styles.AddAssociative | loki/core/style.py:78-89 | the merge is associative |
| Styles.DefaultStyle | loki/core/style.py:93-95 | the default style is "Default" with colours 1, marker 20 and line width 2 |
| Plots.NewPlot | loki/core/plot.py:77-135 | a plot without drawables is fatal; `stack` moves the drawables to the stack; a single label is wrapped into a list; the reference drawable is the first plain else first stacked one |
| Plots.CreateRatios | loki/core/plot.py:499-510 | one ratio per plain drawable after the first, each over the first; none with a stack |
| Plots.RatioMax | loki/core/plot.py:577-588 | a set maximum is kept; the automatic one needs ratio values |
| Plots.RatioMin | loki/core/plot.py:590-601 | a set minimum is kept; the automatic one needs ratio values |
| Plots.RatioRangeCovers | loki/core/plot.py:577-601 | the automatic ratio range is symmetric about 1 and contains every ratio value |
| Plots.YMaxCovers | loki/core/plot.py:514-543 | the automatic maximum lies at or above every non-negative drawable maximum and the stack total |
| Plots.YMin | loki/core/plot.py:545-575 | a set minimum is kept; an automatic log-scale minimum is positive |
| Plots.YMinCovers | loki/core/plot.py:545-575 | on a linear scale the automatic minimum lies at or below every drawable minimum |
| Plots.StackOrder | loki/core/plot.py:491-493 | only stackable drawables enter the stack |
| Plots.StackOrderAllStackable | loki/core/plot.py:491-493 | with all drawables stackable the stack holds them in reverse order |
| Plots.StackNormalizeSumsToOne | loki/core/plot.py:479-490 | after normalisation each bin of the stack sums to 1, or to 0 where the total is 0 |
| CoreHelpers.CombineWeights | loki/core/helpers.py:63-78 | the product string is empty exactly when there are no weights |
| CoreHelpers.CombineWeightsIsCombine | loki/core/helpers.py:73-76 | with at least one weight the product is the `*` combination of parenthesised weights |
| CoreHelpers.CombineWeightsContains | loki/core/helpers.py:73-76 | every weight appears in the product enclosed in parentheses |
| CoreHelpers.CombineWeightsSnoc | loki/core/helpers.py:73-76 | weights are multiplied in input order: one more weight appends `*(w)` |
| CoreHelpers.Rgb2RootAsWritten | loki/core/helpers.py:293-298 | channels are the level values over 255 with one entry per level; stops are k/(n-1) below 1.01; one level fails; the stop count equals the level count iff there are at most 101 levels |
| CoreHelpers.StopsCount | loki/core/histutils.py:60-67 | stepping by 1/(n-1) below 1.01 makes exactly n values iff n <= 101 |
| CoreHelpers.Rgb2Root | loki/core/helpers.py:293-298 | corrected conversion: one evenly spaced stop per level from 0 to 1, strictly increasing, channels as above |
| CoreHelpers.Rgb2RootAgrees | loki/core/helpers.py:295 | up to 101 levels the corrected stops are those the code produces |
| CoreHelpers.BarFill | loki/core/helpers.py:31-50 | a zero total fails; part way through the fill lies between 0 and the width (40 when unset); none done gives 0 and all done gives the full width |
| CoreHelpers.BarFillMonotone | loki/core/helpers.py:43-46 | the fill never decreases as progress grows |
| CoreHelpers.Bar | loki/core/helpers.py:42-50 | the bar is bracketed and fails exactly when the total is zero |
| CoreHelpers.BarShape | loki/core/helpers.py:42-50 | part way through, the bar is width+2 long, `=` for the first `fill` places and spaces after |
| CoreHelpers.AllSubclassesCount | loki/core/helpers.py:313-322 | every class below the root is listed once: the list length is the hierarchy size minus one |
| CoreHelpers.SubclassesOfAppend | loki/core/helpers.py:319-322 | siblings are listed in definition order, each group after the earlier ones |
| CoreHelpers.PreOrder | loki/core/helpers.py:319-322 | each direct subclass is immediately followed by all of its own subclasses (pre-order depth-first) |
| Files.Items | loki/core/file.py:127-128 | a single drawable is wrapped into a one-element list, a list is used as given, `None` gives nothing |
| Files.DirOf | loki/core/file.py:132-133 | the sub-directory has no leading or trailing `/` |
| Files.Write | loki/core/file.py:114-140 | `None` leaves the file unchanged; otherwise the sub-directory is created if missing, earlier objects are kept, and each drawable is appended in order with its directory |
| Files.WriteOneIsList | loki/core/file.py:128 | writing one drawable is the same as writing the list holding it |
| Files.WriteConcat | loki/core/file.py:139-140 | writing two lists in turn to one directory equals writing their concatenation |
| Files.WriteStripsSlashes | loki/core/file.py:132-133 | surrounding slashes do not change where objects go |
| Files.SplitExt | loki/core/file.py:155 | `os.path.splitext`: root and extension concatenate back to the path; the extension is empty or one leading dot with no further dot or slash |
| Files.SplitExtInsert | loki/core/file.py:155-158 | inserting a dot- and slash-free suffix before the extension keeps the extension |
| Files.TakenBound | loki/core/file.py:156-161 | distinct version numbers give distinct names, so n taken versions need n existing paths |
| Files.UniqueSequentialName | loki/core/file.py:153-161 | returns `stem_v<n>ext` for the smallest n >= 1 whose name is not an existing path; the extension is preserved and n is at most one more than the number of existing paths |
| Algs.AlgType | loki/train/algs.py:176-178 | the classifier type is `k` followed by the back-end type, which can be read back after the `k` |
| Algs.Entry | loki/train/algs.py:193-200 | None gives no entry, True the key, False `!key`, any other value `key=value` |
| Algs.Entries | loki/train/algs.py:192-200 | one entry per option that is set |
| Algs.EntriesAppend | loki/train/algs.py:193 | entries follow dictionary order |
| Algs.OptStr | loki/train/algs.py:181-202 | with no option set the option string is empty |
| Algs.OptStrSplit | loki/train/algs.py:201 | with `:`-free keys and values, splitting the option string at `:` gives back the entries |
| Algs.XgbVarName | loki/train/algs.py:692-699 | an iteration count appends `i<n>` and wins over an iteration fraction, which appends `f` and the truncated percentage in two digits; neither leaves the name |
| Algs.XgbVarNameInjective | loki/train/algs.py:695-696 | different iteration counts give different names |
| Algs.XgbVarNamePercent | loki/train/algs.py:697-698 | fractions truncating to the same percentage share a name |
| Algs.TunerVarName | loki/train/algs.py:932-943 | `Score` without a working point, else `Eff` and the two-digit efficiency |
| Algs.TunerVarNameDistinct | loki/train/algs.py:939-942 | working points of different whole percentages below 100 get different names, none equal to the score's |
| Algs.Clamp | loki/train/algs.py:1003-1005 | the dependent variable is clamped into the model's range and left alone inside it |
| Algs.ClampIdempotent | loki/train/algs.py:1003 | clamping twice is clamping once |
| Algs.PredictEff | loki/train/algs.py:999-1023 | passes iff the discriminant is above the cut at the clamped variables, below it when reversed |
| Algs.PredictEffBeyondRange | loki/train/algs.py:1003 | beyond the range the decision is the one at its edge |
| Algs.PredictEffMonotone | loki/train/algs.py:1018-1021 | a passing discriminant still passes when moved further from the cut |
| Algs.Transform | loki/train/algs.py:1026-1030 | equal cuts fail; at the lower cut the score is `1-eff_lo`, at the upper `1-eff_hi`, mirrored when reversed |
| Algs.TransformMonotone | loki/train/algs.py:1028 | between two working points the score rises with the discriminant and stays between their values |
| Algs.TransformReverse | loki/train/algs.py:1029 | reversing mirrors the score |
| Algs.ScanDown | loki/train/algs.py:1320-1325 | the first bin from the top whose content from there up reaches the target at three decimals |
| Algs.ScanUp | loki/train/algs.py:1314-1319 | the first bin from the bottom whose content up to it reaches the target |
| Algs.ScoreCut | loki/train/algs.py:1293-1328 | no cut when the overflow alone exceeds the target; a cut's bin reaches the target from above (from below when reversed, with the next bin's low edge) |
| Algs.FindScoreCut | loki/train/algs.py:1305-1328 | the running-sum loop returns exactly the cut `ScoreCut` describes |
| Algs.AccumulateUp | loki/train/algs.py:1314-1319 | the bottom-up running sum stops at the first bin `ScanUp` finds |
| Algs.AccumulateDown | loki/train/algs.py:1320-1325 | the top-down running sum stops at the first bin `ScanDown` finds |
| Algs.Normalized | loki/core/histutils.py:150-157 | a projection with non-zero content is scaled to unit sum |
| Algs.CutAtOrigin | loki/train/algs.py:1263-1289 | every x-bin's cut was found at that or an earlier x-bin, or is the y axis's first low edge |
| Algs.CutAtStep | loki/train/algs.py:1273-1284 | an x-bin takes its own score cut when one is found, else the previous x-bin's cut, else the y axis's first low edge |
| Algs.NextCut | loki/train/algs.py:1266-1284 | one pass of the x-bin loop computes exactly that x-bin's cut, given the previous one |
| Algs.EffDist | loki/train/algs.py:1266-1272 | the efficiency distribution of a projection has one value per score bin |
| Algs.Found | loki/train/algs.py:1273 | a score cut found for an x-bin is a bin edge index of its projection |
| Algs.GetCuts | loki/train/algs.py:1241-1290 | one pair per x-bin, the bin centre with its cut, falling back to the previous cut or the minimum |
| Alg.ConvertToString | loki/train/alg.py:816-825 | converting a JSON value (recursively through lists and dictionaries) gives back the same value |
| Alg.AttrGroups | loki/train/alg.py:361-370 | configuration and samples partition the saved constructor arguments minus name/wspath/info; info is split off when present |
| Alg.AttrGroupsRejoin | loki/train/alg.py:361-370 | configuration plus samples together are exactly the non-reserved saved constructor arguments |
| Alg.Clone | loki/train/alg.py:195-210 | fails iff a constructor argument is not an attribute; else keys are the arguments minus wspath/info plus the overrides, and overrides win |
| Alg.CloneResetsWorkspace | loki/train/alg.py:200-210 | a clone not given them carries no workspace and no info |
| Alg.Saveas | loki/train/alg.py:134-162 | succeeds iff the path is given and, normalised, ends in ".alg" and does not exist; the workspace is the normalised path |
| Alg.SaveasNoOverwrite | loki/train/alg.py:155-157 | saving to the same path a second time fails |
| Alg.NormalizeSaved | loki/train/alg.py:152 | normalising a saved workspace path changes nothing |
| Alg.LoadSource | loki/train/alg.py:510-532 | a ".alg" directory reads its config.json, a ".json" file is read (also from the configuration directory) without workspace, anything else loads nothing |
| Alg.Load | loki/train/alg.py:498-509 | a path with '*' gives a list no longer than the matches, otherwise a single result |
| Alg.LoadWildcard | loki/train/alg.py:503-508 | a wildcard loads exactly the matches that load on their own |
| Alg.Somes | loki/train/alg.py:503-508 | the algorithms kept from a wildcard are exactly the ones that loaded, no more than there were matches |
| Alg.LoadEach | loki/train/alg.py:503-508 | every wildcard match is loaded, one result per match |
| Alg.SavedLoads | loki/train/alg.py:134-162 | a workspace saved by saveas loads back from its own config.json |
| Alg.LoadedInfo | loki/train/alg.py:549-550 | info read from a ".json" file without workspace is marked not persistified unless empty; otherwise unchanged |
| Alg.FindClass | loki/train/alg.py:568-576 | the first subclass with the saved class name, none iff no subclass has that name |
| Alg.ToTrain | loki/train/alg.py:600-606 | the algorithms to train are exactly those not yet trained, or all of them with retrain |
| Alg.TrainedSkipped | loki/train/alg.py:602-604 | a trained algorithm is trained again iff retrain is set |
| Alg.Cores | loki/train/alg.py:613-615 | worker count between 1 and the core count; unset means all cores, a positive count within range is kept |
| Alg.TrainLocal | loki/train/alg.py:584-654 | an empty list fails; otherwise the jobs are the ones to train and the outcome is success iff every job trains |
| Alg.Failures | loki/train/alg.py:622-636 | the failure count is zero iff every job succeeds |
| Alg.ProductCount | loki/train/alg.py:765-768 | there are as many grid points as the product of the option list lengths |
| Alg.ProductMembers | loki/train/alg.py:765-768 | a combination is a grid point iff it takes one value of each option |
| Alg.Product | loki/train/alg.py:765-768 | an option with no values gives no grid point at all |
| Alg.Prepend | loki/train/alg.py:765-768 | putting a value in front of every combination keeps their number and order |
| Alg.PathJoin | loki/train/alg.py:783 | the joined path ends with the second part; an absolute second part replaces the first, otherwise the first part comes first with at most one '/' added |
| Alg.Basename | loki/train/alg.py:777 | the base name holds no '/' and ends the path |
| Alg.GridPointShape | loki/train/alg.py:760-768 | every grid point assigns each option, in order, one of its values |
| Alg.GridPoints | loki/train/alg.py:760-768 | no points for a non-dictionary attribute, else one per combination |
| Alg.GridPathInjective | loki/train/alg.py:783-784 | distinct indices give distinct grid workspace paths |
| Alg.GridName | loki/train/alg.py:787 | the grid point's name is the template name (or "None") followed by the padded index |
| Alg.NextFree | loki/train/alg.py:781-786 | the search stops at the first free index from its start, after at most as many steps as there are existing paths |
| Alg.SpawnIndices | loki/train/alg.py:779-789 | every grid point takes the first free index from the previous one and saves its workspace, which exists for later points |
| Alg.SpawnCreates | loki/train/alg.py:789 | without leading whitespace in the prefix every free grid workspace is created |
| Alg.SpawnStrict | loki/train/alg.py:779-789 | then consecutive grid points get strictly increasing indices |
| Alg.GridPrefix | loki/train/alg.py:771-778 | the prefix is the workspace's base name without extension when persistified, else the name, inside dirname when given |
| Ntup.MvConts | loki/train/ntup.py:78-79 | the multi-valued containers in use are exactly those of some variable |
| Ntup.LenVar | loki/train/ntup.py:76-86 | two or more multi-valued containers raise ValueError; none gives no length variable; one gives the first multi-valued variable |
| Ntup.LenVarContainer | loki/train/ntup.py:83-84 | the length variable's containers are all the multi-valued containers in use |
| Ntup.TempSel | loki/train/ntup.py:111-112 | a sub-sample selection is combined with the requested one, either alone is kept as is |
| Ntup.TempSelMeaning | loki/train/ntup.py:111-112 | the combined selection passes iff both selections pass |
| Ntup.AddDummyWeight | loki/train/ntup.py:117-121 | without an active event weight a "weight" column of 1.0, as long as the first array, is appended; nothing changes otherwise |
| Ntup.ScaleWeight | loki/train/ntup.py:123-127 | the first "weight" column is multiplied by the scale and no other column changes; none fails |
| Ntup.UnweightedOnes | loki/train/ntup.py:105-127 | without weights every file's weight column is all ones |
| Ntup.UnweightedScaled | loki/train/ntup.py:105-127 | with weights but no event weight, a scaled sub-sample's weight column is its scale |
| Ntup.SplitDefaults | loki/train/ntup.py:216-222 | the cut defaults to the even entries, outputs default to the input with ".root" replaced, the second cut is the negation of the first |
| Ntup.ReplaceRootSuffix | loki/train/ntup.py:218-219 | replacing ".root" in a name ending in it (and holding it nowhere else) swaps only that suffix |
| Ntup.DefaultOutputs | loki/train/ntup.py:218-219 | "X.root" splits by default into distinct "X_train.root" and "X_test.root" |
| Ntup.Select | loki/train/ntup.py:228-236 | a copied tree holds exactly the passing entries, in increasing order |
| Ntup.SplitComplement | loki/train/ntup.py:222-236 | the two outputs are complementary: every entry lands in exactly one |
| Ntup.DefaultSplitHalves | loki/train/ntup.py:217 | the default cut sends the even entries, half rounded up, to the first output |
| Ntup.Without | loki/train/ntup.py:289-290 | disabling a branch before the copy keeps exactly the other branches |
| Ntup.Decorate | loki/train/ntup.py:252-303 | fails iff the input is missing, the branch exists without overwrite, or prediction fails; otherwise the new branch comes last, once, and all others are kept |
| Ntup.DecorateAgain | loki/train/ntup.py:263-271 | decorating again with overwrite changes nothing, and without it is refused |
| ArgParse.ReadArgsStr | loki/utils/helpers.py:69-72 | None stays None; otherwise one piece per comma plus one |
| ArgParse.ReadArgsStrJoin | loki/utils/helpers.py:72 | trimmed comma-free pieces joined with commas read back unchanged |
| ArgParse.ReadArgsFile | loki/utils/helpers.py:52-66 | a missing file gives None; every argument kept is non-empty and not a comment, and there are no more than lines |
| ArgParse.KeptLinesMembers | loki/utils/helpers.py:61-65 | an argument is kept iff it is some line, stripped, that is neither empty nor starts with `#` |
| ArgParse.KeptLinesAppend | loki/utils/helpers.py:61-65 | arguments keep the order of the file's lines |
| ArgParse.ParseArg | loki/utils/helpers.py:230-240 | an argument without `=` always names an option; more than one `=` fails to unpack |
| ArgParse.ParseEntry | loki/utils/helpers.py:230-240 | `key=value`, `!key` and `key` read back as the text, False and True they encode |
| ArgParse.ParseArgNone | loki/utils/helpers.py:232 | a value spelled none in any case drops the argument |
| ArgParse.GetArgs | loki/utils/helpers.py:225-227 | no arguments give None |
| ArgParse.ArgsMapEntries | loki/utils/helpers.py:228-241 | reading option entries back builds the dictionary of the options that are set, later keys overwriting earlier ones |
| ArgParse.GetArgsEntries | loki/utils/helpers.py:214-241 | `get_args` inverts the option-string encoder on readable options |
| ArgParse.LookupAll | loki/utils/helpers.py:90-95 | fails iff some name is not a predefined variable; otherwise the variables found, in order |
| ArgParse.CombineNamed | loki/utils/helpers.py:88-99 | an unknown name is an error |
| ArgParse.CombinedShape | loki/utils/helpers.py:96-99 | one name gives that variable; several give a temporary combination of exactly those variables, in order |
| ArgParse.GetSel | loki/utils/helpers.py:87 | no argument gives no selection |
| ArgParse.GetWei | loki/utils/helpers.py:114 | no argument gives no weight |
| ArgParse.ParseView | loki/utils/helpers.py:181-191 | without `:` the stripped name and no view; more than one `:` fails |
| ArgParse.ParseNamed | loki/utils/helpers.py:182-187 | without `;` the view name with the default binning |
| ArgParse.ParseBinning | loki/utils/helpers.py:184-185 | the pieces are read left to right: a count that is not an integer fails with its ValueError first, then a missing second or third piece is an IndexError and an unreadable one a ValueError; a binning is the count and the two floats the pieces read as |
| ArgParse.ParseBinningOrder | loki/utils/helpers.py:185 | "x;1" fails for its count before its missing maximum is noticed; "2;1" fails with an IndexError exactly when "1" reads as a float |
| ArgParse.ParseViewBinning | loki/utils/helpers.py:181-185 | `VAR:N;MIN;MAX` reads as the variable, the view text and the binning (N, MIN, MAX) |
| ArgParse.GetVars | loki/utils/helpers.py:145-148 | None for no arguments, else per name the predefined variable or one made on the fly |
| ArgParse.ResolveView | loki/utils/helpers.py:192-208 | an unknown variable without binning gives None; an existing named view is returned by name |
| ArgParse.ResolveUnknownWithBinning | loki/utils/helpers.py:198-208 | an unknown variable with a binning gets a `temp` view of N uniform bins |
| ArgParse.GetViews | loki/utils/helpers.py:175-210 | a missing list fails; a full result has one view per argument |
| RootHtml.SplitSepJoin | loki/utils/root2html.py:621 | joining the pieces of a split on "__" with "__" gives the name back |
| RootHtml.SplitSep | loki/utils/root2html.py:621 | a split always gives at least one piece |
| RootHtml.SplitSepSingle | loki/utils/root2html.py:621 | a name without "__" is one piece |
| RootHtml.SplitSepAppend | loki/utils/root2html.py:621-626 | splitting `a + "__" + b` splits `a` and `b` apart when `a` does not end in '_' |
| RootHtml.NoSepInPieces | loki/utils/root2html.py:621 | no piece of a split holds "__" |
| RootHtml.Postfix | loki/utils/root2html.py:617-622 | a postfix exists only for a name holding "__"; it is non-empty and free of "__" |
| RootHtml.PostfixOf | loki/utils/root2html.py:617-622 | the postfix of `base + "__" + p` is `p` |
| RootHtml.CleanName | loki/utils/root2html.py:624-627 | a name not ending in "__" + postfix is unchanged |
| RootHtml.CleanNameDrops | loki/utils/root2html.py:624-627 | a name `base + "__" + postfix` is cleaned back to `base` |
| RootHtml.CleanStatsNames | loki/utils/root2html.py:615-627 | an empty list fails; otherwise statistics stay, and names lose the last name's postfix where they end in it |
| RootHtml.CleanStatsShared | loki/utils/root2html.py:615-627 | names sharing one "__" postfix are cleaned back to their bases |
| RootHtml.StatsRow | loki/utils/root2html.py:639-645 | a row as long as the header, the name first, each statistic or '' when missing |
| RootHtml.StatsTable | loki/utils/root2html.py:630-646 | an empty list fails; otherwise the 2D header iff the first object has "rms_x", then one full-length row per object |
| RootHtml.StatsTableCell | loki/utils/root2html.py:639-645 | the cell under a statistic's column is that statistic or '' |
| RootHtml.Shown | loki/utils/root2html.py:669-672 | the shown text is at most 20 characters: the cell itself, or its first 17 and "..." |
| RootHtml.TooLongMouseOver | loki/utils/root2html.py:669-672 | short cells are unchanged, long ones become a link titled with the full text |
| RootHtml.TableHtml | loki/utils/root2html.py:649-666 | the HTML opens and closes the table; an empty table is just those |
| RootHtml.TableHtmlHeader | loki/utils/root2html.py:656-659 | the first row is a header row |
| RootHtml.TableHtmlAppend | loki/utils/root2html.py:660-662 | every later row is a data row, added before the closing tag |
| RootHtml.CommonPrefixLen | loki/utils/root2html.py:748 | the shared component prefix is common to both and maximal |
| RootHtml.RelList | loki/utils/root2html.py:750 | one ".." per start component past the shared prefix, then the path's remaining components |
| RootHtml.RelPath | loki/utils/root2html.py:725-753 | an empty path is a ValueError; a path relative to itself is "." |
| RootHtml.RelListResolves | loki/utils/root2html.py:744-753 | following the relative components from the start leads to the path |
| RootHtml.ResolveUp | loki/utils/root2html.py:750 | each leading ".." of a relative path strips one component of the start directory |
| RootHtml.ResolveDown | loki/utils/root2html.py:750 | components other than ".." are appended as they are |
| RootHtml.JoinAll | loki/utils/root2html.py:753 | the joined path ends with the last component, is that component when it is absolute, and starts with the first component when none is absolute |
| RootHtml.RelListBelow | loki/utils/root2html.py:748-750 | a path below the start needs no ".." |
| Properties.GetProperty | loki/utils/system.py:42-47 | a key is present exactly when a value comes back, and the value is the stored one |
| Properties.SetThenGet | loki/utils/system.py:46-67 | after `set_property` the key reads back the value set, and every other key reads as before |
| Properties.GetOrPrompt | loki/utils/system.py:50-54 | a present key is returned without changing the store; a missing one is set to the user's answer; either way the returned value is what the store now holds for the key |
| Properties.GetOrPromptOnce | loki/utils/system.py:50-54 | a second request for the same key does not ask again and returns the first answer |
| Properties.BelowTotal | loki/utils/system.py:82 | Python's string order sorts any two distinct keys one way or the other |
| Properties.BelowTransitive | loki/utils/system.py:82 | Python's string order is transitive |
| Properties.SortedKeys | loki/utils/system.py:82 | the keys listed once each, all of them and nothing else, in strictly increasing string order |
| Properties.WrittenLines | loki/utils/system.py:80-84 | the file written holds one "key: value" line per property, in increasing key order, and nothing else |
| Properties.PairSplit | loki/utils/system.py:76-77 | as written, the key and value are the first two pieces of `split(':')` of the stripped line |
| Properties.ValueCutAtColon | loki/utils/system.py:76-77 | as written, a stored value `a:b` whose `a` has no colon reads back as `a` alone |
| Properties.ParseLine | loki/utils/system.py:73-77 | a stripped line fails exactly when it is not a comment and holds no ':'; a key and value read are stripped |
| Properties.Apply | loki/utils/system.py:73-77 | reading succeeds exactly when every line reads, and it never drops a key already held |
| Properties.ReadConfigAsWritten | loki/utils/system.py:70-77 | a missing file leaves the store as it is; otherwise the keys already held stay |
| Properties.ReadConfig | loki/utils/system.py:70-77 | as above, reading each value as the whole text after the key's ':' |
| Properties.ParseWritten | loki/utils/system.py:74-77 | a written "key: value" line reads back as that key and value (when the value keeps its ':' pieces) |
| Properties.ApplyLines | loki/utils/system.py:73-77 | reading the lines written for some keys sets exactly those keys to their values over the store |
| Properties.WriteReadRoundTrip | loki/utils/system.py:70-84 | properties written by `write_config` and read by `read_config` come back whole, over whatever the store held |
| Properties.ColonValueTruncated | loki/utils/system.py:76-77 | as written, a value "a:b" is written as "k: a:b" and reads back as "a"; read with the first ':' only, it reads back whole |
| FileGen.TextSpace | loki/utils/filegen.py:255-257 | exactly `n` characters, every one a newline |
| FileGen.TextSpaceAdd | loki/utils/filegen.py:255-257 | two runs of newlines placed together are the run of their summed length |
| FileGen.TextFuncLine | loki/utils/filegen.py:261-265 | a `#`, then `78 - 4*indent` underscores (none when that is negative), then `=buf=` |
| FileGen.TextClassLine | loki/utils/filegen.py:269-271 | a `#`, then 78 dashes, then `=buf=` |
| FileGen.BarsAlign | loki/utils/filegen.py:261-271 | a top-level function bar is as long as a class bar (84 characters); each indentation level below 19 shortens a function bar by 4; from 20 levels the bar has no underscores |
| FileGen.TextFunc | loki/utils/filegen.py:301-310 | the text opens with the function bar, holds the `def name(args):` line (empty arguments for a missing `argstr`), and ends in `pass` exactly when `do_pass` is set |
| FileGen.TextFuncNoArgs | loki/utils/filegen.py:303 | a missing argument string gives the same skeleton as an empty one |
| FileGen.TextFuncPass | loki/utils/filegen.py:309 | `do_pass` adds exactly the `pass` line at the end and changes nothing else |
| FileGen.TextClass | loki/utils/filegen.py:281-291 | the class skeleton opens with the class bar and holds the `class name():` line |
| FileGen.TextParser | loki/utils/filegen.py:314-339 | the parser skeleton opens with the function bar and the `def parse_args():` line |
| FileGen.TextMain | loki/utils/filegen.py:343-352 | `main` is a function skeleton without `pass`, followed by its body |
| FileGen.TextMainIf | loki/utils/filegen.py:356-361 | the guard text ends by calling `main()` |
| FileGen.ModulePath | loki/utils/filegen.py:219-227 | the module path holds only directory names from the working directory's path, no more of them than there are |
| FileGen.ModulePathAll | loki/utils/filegen.py:219-227 | when every level is a package the module path is the whole directory path, outermost first |
| FileGen.ModulePathLast | loki/utils/filegen.py:219-227 | a working directory with an `__init__.py` ends the path with its own name; without one the path is its parent's |
| FileGen.Description | loki/utils/filegen.py:214-245 | the doc string opens with the dotted module name underlined by as many `~` as it has characters |
| FileGen.NewAspect | loki/utils/filegen.py:139-150 | a part not given is an empty list and a given one is kept; `do_main` is kept |
| FileGen.EmptyAspect | loki/utils/filegen.py:139-150 | the bare aspect adds no imports, functions or classes and no main |
| FileGen.MainAspect | loki/utils/filegen.py:154-175 | the main aspect wants a main and imports `argparse` and `sys`, adding no classes or functions |
| FileGen.ClassAspect | loki/utils/filegen.py:179-186 | the class aspect adds just one class, holding the `class name():` line |
| FileGen.FunctionAspect | loki/utils/filegen.py:190-197 | the function aspect adds just one function, ending in `pass` |
| FileGen.GatherAppend | loki/utils/filegen.py:70-81 | gathering a part over two runs of aspects gives the first run's items, then the second's |
| FileGen.GatherHas | loki/utils/filegen.py:70-81 | an item is gathered exactly when some aspect holds it in that part |
| FileGen.Write | loki/utils/filegen.py:67-115 | the file starts with the shebang exactly when some aspect wants a main; it always ends with the end mark; with a main it ends with the guard and the end mark |
| FileGen.Layout | loki/utils/filegen.py:87-115 | the shebang and guard framing holds for any body that opens with the encoding line |
| FileGen.ImportWritten | loki/utils/filegen.py:70-92 | every import of every aspect appears as an `import` line of the file |
| FileGen.MainMakesScript | loki/utils/filegen.py:82-87 | adding the main aspect to any set of aspects makes the file start with the shebang |
| FileGen.PlainModule | loki/utils/filegen.py:82-87 | if no aspect wants a main, the file has no shebang |
| FileGen.OrElse | loki/utils/filegen.py:54-55 | a given non-empty value wins; a missing or empty one gives way to the fallback |
| FileGen.NewCreator | loki/utils/filegen.py:50-55 | a new creator has no aspects; a given author or email is kept; a missing one comes from the user properties, which then hold it, and no property is lost |
| FileGen.Add | loki/utils/filegen.py:58-64 | `add` keeps the name and author and places the new aspect last |
| FileGen.AddGathersLast | loki/utils/filegen.py:58-81 | what a newly added aspect brings is gathered after everything added before it |
| TauIdRun.WorkingPoints | loki/tauid/r21/run.py:81-94 | four working points per prong, loosest first, each with a signal efficiency between 0 and 100 percent that falls strictly from looser to tighter |
| TauIdRun.FileSuffix | loki/tauid/r21/run.py:103-111 | the new name is the old one lengthened by the suffix, still opening with the old root and ending with the old extension |
| TauIdRun.FileSuffixKeepsExt | loki/tauid/r21/run.py:103-111 | with a suffix free of `.` and `/`, the new name splits into the old root plus the suffix and the old extension |
| TauIdRun.FileSuffixExample | loki/tauid/r21/run.py:106-107 | "ntuples/sig1P.root" with "_deco" becomes "ntuples/sig1P_deco.root" |
| TauIdRun.GlobsSeparate | loki/tauid/r21/run.py:137-215 | the BDT workspace glob finds both BDT workspaces and no flattening; the flattening glob finds both flattenings and no BDT |
| TauIdRun.ProngOf | loki/tauid/r21/run.py:220 | the prong is one-prong exactly when the workspace name contains "1P", three-prong otherwise |
| TauIdRun.DecoBdt | loki/tauid/r21/run.py:150-178 | a workspace is decorated exactly when it is trained and each testing sample has one file; then the signal and then the background testing file are copied |
| TauIdRun.TuneWp | loki/tauid/r21/run.py:181-204 | the flattening workspace is written as `FlatJetBDT<prong>.alg` in the output directory |
| TauIdRun.BackgroundFile | loki/tauid/r21/run.py:231-241 | no background exactly when the signal file's base name mentions neither "1P" nor "3P"; otherwise the decorated testing background of the prong it mentions ("1P" first), beside the signal file |
| TauIdRun.DecoWp | loki/tauid/r21/run.py:213-253 | a flattening is applied exactly when it is trained, its signal sample has one file and the background can be inferred; then the signal and background files are copied and every working-point efficiency of the workspace's prong is decorated on each |
| TauIdRun.BasenameJoin | loki/tauid/r21/run.py:169-170 | a file name without `/` joined to a directory keeps that name as its base name |
| TauIdRun.DecoFeedsTune | loki/tauid/r21/run.py:169-187 | run in one directory, `tune_wp` reads exactly the decorated signal file `deco_bdt` wrote for the prong |
| TauIdRun.TuneFeedsDecoWp | loki/tauid/r21/run.py:169-235 | the background name `deco_wp` infers is the name `deco_bdt` gives the prong's decorated testing background |
| TauIdRun.OneProngBackground | loki/tauid/r21/run.py:232-241 | the decorated one-prong signal file leads to the decorated one-prong background in its own directory |
| TesPlots.YRange | loki/tes/plots.py:158-168 | a range comes back exactly for the median, mode and winmode modes; it has the variable's midpoint and a fifth of its width |
| TesPlots.YRangeInside | loki/tes/plots.py:161-167 | for a proper variable range the narrowed range lies inside it, in order, around the same midpoint |
| TesPlots.SampleList | loki/tes/plots.py:79-86 | outside multisample mode exactly one sample is plotted; a list is plotted as given |
| TesPlots.Defaulted | loki/tes/plots.py:88-98 | each missing argument takes its default (the pt calibrations, the winmode/core/tail modes, the standard dependent variables, the standard selection) and each given one is kept |
| TesPlots.DefaultedKeepsGiven | loki/tes/plots.py:88-98 | arguments that are all given, even empty, pass through unchanged |
| TesPlots.Filter | loki/tes/plots.py:118-145 | a calibration is kept exactly when there is no filter, the filter is empty, or the filter names it; nothing is added |
| TesPlots.FilterNone | loki/tes/plots.py:118-145 | without a filter every calibration is kept, in order |
| TesPlots.MultiPlot | loki/tes/plots.py:115-129 | a multisample plot overlays one profile per sample, in sample order, of the calibration's variable, with that variable's corrected range and a ratio panel |
| TesPlots.MultiForMode | loki/tes/plots.py:117-129 | for one dependent variable and mode there is one multisample plot per kept calibration, in order |
| TesPlots.SinglePlot | loki/tes/plots.py:140-153 | a single-sample plot overlays one profile of the sample per kept calibration, in order, with the corrected range of the last kept calibration and no ratio panel |
| TesPlots.SingleForDepvar | loki/tes/plots.py:141-153 | for one dependent variable there is one single-sample plot per mode, in order |
| TesPlots.ResProfiles | loki/tes/plots.py:49-154 | multisample mode fails (the plot's fatal exit) exactly when the sample list is empty and some plot is due; single-sample mode fails exactly when there are no calibrations, or when none is kept and some plot is due |
| TesPlots.MultiCount | loki/tes/plots.py:115-129 | multisample mode makes dependent variables times modes times kept calibrations plots |
| TesPlots.SingleCount | loki/tes/plots.py:140-153 | single-sample mode makes dependent variables times modes plots |
| TesPlots.MultiOverlaysSamples | loki/tes/plots.py:121-129 | every multisample plot has one profile per sample and a ratio panel |
| TesPlots.SingleUsesSample | loki/tes/plots.py:143-153 | every single-sample plot has one profile per kept calibration, all of the one sample, and no ratio panel |
| TesPlots.ResProfilesCount | loki/tes/plots.py:105-154 | the number of plots returned in each mode |
| TesPlots.EmptyListIsMultisample | loki/tes/plots.py:79-129 | an empty sample list is taken as multisample; it fails as soon as a plot is due, since that plot has nothing to draw, and otherwise yields no plots |
| Reals.TruncMonotone | loki/core/helpers.py:46 | `int()` truncation keeps the order of non-negative values |

## Left out

- ROOT file and tree I/O (`TFile`, `TTree`, `TTree::Process`, `TTreeFormula` evaluation, `TTreeFormulaManager::Sync` and `GetNdata`): formula values per slot and the per-event slot count `n` are inputs of `LokiHist.Fill` and `LokiSelector.Process`.
- ROOT's `TAxis::FindBin`: its source is not part of this model, so `Histogram.FindBin` is an explicit helper with the half-open, underflow/overflow contract the Python code relies on.
- Formula registration with the formula manager: it is commented out in src/LokiSelector.h:183-191, so it has no effect to model.
- `SlaveTerminate`, `Notify` and `GetEntry` of the selector: they do nothing observable beyond what `Process` and `Terminate` model.
- The `multiprocessing.Pool` fan-out and polling in loki/core/process.py:374-391, loki/core/_depr_process.py:279-313 and loki/train/alg.py:619-634: the model runs jobs sequentially and merges the same outputs.
- md5 in `hist_hash` and `file_hash`: a hash is represented by the text it digests, and `file_hash` is a parameter.
- The on-disk histogram cache and its file lock (loki/core/process.py:400-457): cache existence is a parameter; only the cached/total tally is modelled.
- Random temporary output names: a counter stands in for them, since only their distinctness matters.
- Decimal rounding in `__discritize_event_frac__`, `__find_score_cut__` and the per-mille rendering in `hist_hash`: the rounding function is a parameter of the model.
- Float-only numerics (`log_bins`, toy widths, Gaussian fits, quantiles, `divide_hists`, `make_eff`, `get_median`): real-number transcendental functions and ROOT fitting are outside what the model states.
- Known-broken code: `convert_hist_to_2dhist` (undefined `i`), `MetaLegend` (undefined `ncolumn`), `spawn_grid`'s `log.error` path (calls a method on a function) and `check_flatbdt.py` (imports missing modules); these raise before doing anything to model.
- TMVA and xgboost training and prediction, plot drawing, legends, style application to ROOT objects and HTML/image writing: they are foreign library calls.
- CLI subcommands, logging, setup, the variable/sample/style definition modules and the plot factories: configuration, not logic.
- `FileCreator` file writing and `chmod`: the generated text is modelled; the user name, working directory and clock are parameters and the header is given as text.
- `raw_input` in loki/utils/system.py: the user's answer is a parameter. `raw_input` exists only in Python 2, while the file's f-strings need Python 3, so no interpreter runs this prompt as written; the model gives it the evident meaning, a prompt for one line.
- The `Properties.__del__` write and `get_project_path`: file-system side effects.
- `has_property`: loki/utils/system.py:43 calls `self.data.has_key(key)`, a Python 2 method that a Python 3 `dict` lacks. The model reads it as the evident `key in self.data`, the presence test `Properties.GetProperty` states.
- `spawn_bdt`, `train_bdt`, `run_all`, `get_args` and `copyfile` in loki/tauid/r21/run.py: job launching and argument plumbing; `glob` is modelled as a set of file names.
- `decorate`'s `exit(1)` in loki/tauid/r21/run.py: the model returns an error instead of exiting.
- The `bdtopts`/`bdtvars` tables of loki/tauid/r21/run.py: constant configuration.
- `create_resid_dists`, `baseline_plots` and `comparison_plots` in loki/tes/plots.py: drawing only; profiles are reduced to their names, and the module defaults are parameters.
- Alg.Load: one level of wildcard expansion is modelled; a glob result that itself contains `*` would recurse again in the source.
- ArgParse.ParseCount: `int()` also accepts a sign and surrounding whitespace; only unsigned digit strings are modelled.
- ArgParse.ResolveView: the `add_view` mutation of the registered variable is not carried back into the registry.
- Ntup: ntuple reading and writing, `split_ntup` with no input file and `decorate_ntup`'s file replacement are I/O.
- RootHtml.TableHtml: the source converts the table in place; the model returns the converted rows.
- RootHtml.RelPath: `os.path.abspath` is a parameter, since it depends on the working directory.
- CoreHelpers.Rgb2RootAsWritten: an empty palette is excluded, because the step `1/(n-1)` is then -1 and the source's range generator never terminates.
- HistUtils.FRange: a non-positive step starting below `x2` is excluded, because the source generator never terminates there.
- Histogram.Add: requires equal binning, so ROOT's refusal to add histograms of different binning is not modelled.
- TesPlots.YRange: the variable's range is passed as `lo`/`hi` rather than looked up on the variable object.
- Documentation and code differ on multisample mode: the documentation calls it "a list with more than one element", but an empty list also takes the multisample branch in loki/tes/plots.py:79-86. The model follows the code: the first plot it makes then holds no profile, and loki/core/plot.py:129-131 stops the program on it (TesPlots.EmptyListIsMultisample).

- Properties.GetOrPrompt: follows the Python 2 reading of `has_key` (loki/utils/system.py:43); under Python 3, which the file's f-strings require, every call raises AttributeError before the store is read.
- Properties.GetOrPromptOnce: rests on the same `has_key` call (loki/utils/system.py:43), so under Python 3 the first request already raises AttributeError.
- FileGen.NewCreator: a missing author or email is asked of the user properties (loki/utils/filegen.py:54-55), which reach the `has_key` call of loki/utils/system.py:43; under Python 3 that raises AttributeError, and the model follows the Python 2 reading.
- FileGen.ModulePath: loki/utils/filegen.py:222 loops over `xrange`, which Python 3 does not define; the model gives the loop its Python 2 meaning instead of a NameError.
- FileGen.ModulePathAll: rests on the same `xrange` loop (loki/utils/filegen.py:222).
- FileGen.ModulePathLast: rests on the same `xrange` loop (loki/utils/filegen.py:222).
- FileGen.Description: the module name comes from the `xrange` loop of loki/utils/filegen.py:222; under Python 3 the description raises NameError.
- FileGen.Write: `write` builds the description right after the shebang and encoding lines (loki/utils/filegen.py:85-89), so under Python 3 it raises NameError at the `xrange` loop of loki/utils/filegen.py:222; the model writes the file as Python 2 would.
- FileGen.Layout: states the framing of the file `write` produces under the Python 2 reading of loki/utils/filegen.py:222.
- FileGen.ImportWritten: states the imports of the file `write` produces under the Python 2 reading of loki/utils/filegen.py:222.
- RootHtml.CleanStatsNames: when the last name has a postfix, loki/utils/root2html.py:623 loops over `xrange`, a NameError under Python 3; the model gives the loop its Python 2 meaning.
- RootHtml.CleanStatsShared: the cleaning it proves runs through the same `xrange` loop (loki/utils/root2html.py:623).
- RootHtml.StatsTable: loki/utils/root2html.py:633 calls `has_key('rms_x')` on a statistics `dict`, which raises AttributeError under Python 3 for any non-empty list; the model reads it as the presence test `'rms_x' in stats`.
- RootHtml.StatsTableCell: the cells it states are built only after the same `has_key` call (loki/utils/root2html.py:633).
- Algs.XgbVarName: the percentage is truncated from an exact real product, while the source truncates a binary double; `int(0.29 * 100.)` is 28 there (0.29*100.0 is 28.999999999999996), so the source names that fraction "f28" and the model "f29".
- LokiHist.Fill: edges, weights and contents are reals, while the source keeps them as single-precision floats (src/LokiHist.C:29, 47 and 56); an edge of 0.1 is stored as 0.100000001490116, so a value at such an edge can fall in a neighbouring bin, and unit fills stop adding to a cell at 2^24.
- LokiHist.FillContent: states exact real sums; the source's single-precision `TH1F` contents (src/LokiHist.C:47) round them and saturate at 2^24 under unit fills.
- HistUtils.Integral: a reversed bin range sums to 0 here, whereas ROOT's `IntegralAndError` resets an out-of-range upper bin to the overflow bin; the Python callers never pass a reversed range from `IntegralRange`.
- HistUtils.MergeDiff: keeps the longer histogram's entry count, whereas ROOT's `SetBinContent` also counts one entry per bin it sets.
- Process.SampleScale: takes each sample's scale as an input, so the TypeError that `Samples.ScaleFor` states for a sample without a cross section does not stop the modelled merge.

## Findings

| source | as written | input that shows it | evidently intended | confidence | as-written member | corrected member |
|---|---|---|---|---|---|---|
| loki/core/histutils.py:103 | the lower bound is applied only under `if xmin:`, so a bound of 0.0 is ignored | axis edges [-1, 0, 1] with `xmin = 0.0` start the integral at bin 1 (HistUtils.ZeroLowerBoundIgnored) | start at the bin containing 0.0, bin 2 | not executed | HistUtils.IntegralRangeAsWritten | HistUtils.IntegralRange |
| loki/core/process.py:386 | `__cache_selector__` returns `(nhist_cached, len(hists))` while the caller unpacks `(ntot, ncache)` | a job of two histograms with one found in the cache reports 1 total and 2 cached (Process.TallySwapped) | 2 total and 1 cached | not executed | Process.TallyAsWritten | Process.Tally |
| loki/core/helpers.py:295 | the stops are `frange(0., 1.01, 1/(n-1))`, which yields an extra stop once the step is below 0.01 | a palette of 102 levels gets 103 stops (CoreHelpers.StopsCount) | one stop per level | not executed | CoreHelpers.Rgb2RootAsWritten | CoreHelpers.Rgb2Root |
| loki/utils/system.py:76-77 | `line.split(':')` keeps only the text before the second colon | the line `k: a:b` reads back as `a` (Properties.ColonValueTruncated) | the whole value `a:b`, so that written configs read back | not executed | Properties.ReadConfigAsWritten | Properties.ReadConfig |
