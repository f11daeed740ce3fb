# NEAT genome machinery and population bookkeeping, modelled in Dafny

This project models the core of a Rust implementation of NEAT (NeuroEvolution of Augmenting Topologies) and proves properties of that model. The model covers these parts:

- **Genomes.** A genome is two integer-keyed maps: node id → node gene, and innovation number → connection gene.
- **Operators on a genome.**
  - Weight mutation.
  - Add-connection mutation, with its direction rules, duplicate-edge scan and worklist cycle check.
  - Add-node mutation, which splits a connection.
  - Crossover aligned by innovation number.
  - The matching, disjoint and excess gene counts.
  - The compatibility distance.
- **The species roster.** Sorting with staleness tracking, truncation, fitness sharing, roulette parent selection and offspring generation.
- **The evaluator.** One generation of truncation selection with elitism. It scores, ranks and keeps the best `len / 10 + 1`, then refills the population by crossover or by a weight-mutated clone.
- **The small value types.** The innovation counter, the configuration, node and connection genes, and scored genomes.

## Modules and form

Each Rust file becomes one or more modules, in the form the source code takes:

- **Values: datatypes.** `NodeGenes`, `ConnectionGenes`, `FitnessGenomes` and `Configuration` hold the value types as datatypes with member functions. A setter such as `disable` returns the updated value.
- **Genomes.**
  - `GenomeBase` holds the genome datatype and the builders.
  - `GenomeGraph` holds the connection graph: edges, reachability, acyclicity as the existence of a rank that drops along every edge, and the worklist.
  - `GenomeInvariants` holds the conditions a population keeps: every genome well formed, and any innovation number shared by two genomes naming the same edge.
  - `GenomeMutation`, `GenomeCrossover` and `GenomeDistance` hold the genome operators.
  - An operator that mutates the genome in place takes the old genome and returns the new one.
  - Its loops are `while` loops proved against predicates that describe every possible outcome (`WeightsOnly`, `IsAcceptedInsert`, `Split`, `IsCrossover`, `Count`).
- **Counter, species and evaluator: classes.**
  - `Innovation.Counter`, `Speciation.Species` and `Evaluation.Evaluator` are classes, because the source updates their fields in place.
  - Every `Species` method is tied to a transition function on the `Rosters.Roster` value returned by `State()`. The lemmas in `Rosters` state what each transition does.
  - `Breeding` holds the mutation pipeline that both offspring generators run.
- **Randomness.**
  - Every random draw is either a parameter of the method or an arbitrary choice (`:|`) inside it, and each property is proved for every outcome.
  - The species methods take the roulette draws and the mutation-gate draws as parameters.
  - The evaluator draws its choices with `:|`.
- **Numbers.** Weights and fitness values are `real`. `FloatValues.F64` adds NaN, but only where the source can divide 0 by 0.
- **Proofs.** Every lemma switches automatic induction off (`{:induction false}`); the inductive ones call themselves explicitly.

## Model

| member | source | states |
|---|---|---|
| GenomeBase.EmptyGenome | src/genome/genome.rs:25-30 | a new genome has no nodes and no connections |
| GenomeBase.GetConnectionGenes | src/genome/genome.rs:34-36 | returns the connection map unchanged |
| GenomeBase.GetNodeGenes | src/genome/genome.rs:40-42 | returns the node map unchanged |
| GenomeBase.AddNodeGene | src/genome/genome.rs:69-71 | the gene is stored under its id, overwriting any old gene there; connections and the other nodes are untouched |
| GenomeBase.AddConnectionGene | src/genome/genome.rs:75-77 | the gene is stored under its innovation number, overwriting any old gene there; nodes and the other connections are untouched |
| GenomeBase.BuildersKeepKeying | src/genome/genome.rs:69-77 | both builders keep every gene under its own key; a fresh key adds exactly one gene, and an existing key adds none |
| GenomeMutation.Mutation | src/genome/genome.rs:46-64 | only weights change: node map, key set, endpoints and expressed flags are kept. With a rate ≤ 0 every weight is a uniform sample in [-2, 2); with a rate ≥ 1 every weight is scaled, so a zero weight stays zero |
| GenomeMutation.MutateKey | src/genome/genome.rs:50-63 | one loop pass redraws one not-yet-visited weight and keeps the loop state: only weights differ, unvisited connections are untouched, and the rate ≤ 0 / rate ≥ 1 facts hold for every visited key |
| GenomeMutation.WeightsOnlyKeepsStructure | src/genome/genome.rs:46-64 | a weight-only change keeps exactly the same edges, keeps a genome well formed, and keeps its agreement with any other genome |
| GenomeMutation.Orient | src/genome/genome.rs:98-119 | the reversal rule only swaps the pair; afterwards an Output source has an Output target and an Input target has an Input source |
| GenomeMutation.ListContains | src/genome/genome.rs:167-172 | the dependent-node scan finds the node exactly when it is in the list |
| GenomeMutation.AddConnectionMutation | src/genome/genome.rs:81-207 | on failure (including `maxAttempts ≤ 0`) the genome and the counter are unchanged; on success the counter advances exactly once and the new genome is an accepted insert under the counter's new value |
| GenomeMutation.AcceptedInsertShape | src/genome/genome.rs:87-202 | an accepted insert leaves the nodes alone and adds the key. The new connection is expressed, has weight in [-1, 1) and its two endpoints among the drawn nodes. It never starts at an Output or ends at an Input, and duplicates no edge in either direction. Its source is not reachable from its target. A fresh key gives one more connection |
| GenomeMutation.AcceptedInsertKeepsGenomeOk | src/genome/genome.rs:121-200 | the new connection is not a self-edge, and an acyclic well-formed genome stays acyclic and well formed |
| GenomeMutation.AcceptedInsertKeepsConsistent | src/genome/genome.rs:193-200 | inserting under a key another genome lacks keeps the two genomes in agreement |
| GenomeGraph.DependentNodes | src/genome/genome.rs:136-164 | the worklist loop ends on an acyclic graph and collects exactly the nodes reachable from the start node |
| GenomeGraph.PushSuccessors | src/genome/genome.rs:142-162 | one scan of the connections appends the successors of a node to both lists |
| GenomeGraph.WorklistDone | src/genome/genome.rs:152-164 | once the worklist is exhausted, the collected ids are exactly the reachable nodes |
| GenomeGraph.ConnectionExists | src/genome/genome.rs:174-187 | the duplicate scan finds a connection exactly when one joins the pair in either direction |
| GenomeGraph.AcyclicHasNoCycle | src/genome/genome.rs:136-172 | in an acyclic graph no node reaches itself |
| GenomeGraph.AddEdgeKeepsAcyclic | src/genome/genome.rs:166-200 | adding a non-self edge whose source is not reachable from its target keeps the graph acyclic |
| GenomeGraph.SplitKeepsAcyclic | src/genome/genome.rs:245-270 | disabling an edge and routing it through a new node keeps the graph acyclic |
| GenomeMutation.SuitableConnections | src/genome/genome.rs:219-225 | the list holds exactly the innovation numbers of the expressed connections |
| GenomeMutation.AddNodeMutation | src/genome/genome.rs:212-271 | with no expressed connection, nothing changes and no counter value is drawn. Otherwise the node counter advances by 1 and the connection counter by 2, and the genome is the split of some expressed connection under the new values |
| GenomeMutation.SplitShape | src/genome/genome.rs:245-270 | the split connection stays but is disabled; a Hidden node gets the new id. `in→new` (weight 1.0) takes the first new connection value and `new→out` (the old weight) the second. Nothing else changes |
| GenomeMutation.SplitGrows | src/genome/genome.rs:265-270 | with fresh keys, a split adds one node and two connections |
| GenomeMutation.SplitKeepsGenomeOk | src/genome/genome.rs:245-270 | a split keeps a genome well formed and acyclic |
| GenomeMutation.SplitKeepsConsistent | src/genome/genome.rs:250-270 | a split under keys another genome lacks keeps the two in agreement |
| GenomeCrossover.CopyNodes | src/genome/genome.rs:284-289 | the child starts with exactly the fitter parent's nodes and no connections |
| GenomeCrossover.InheritGene | src/genome/genome.rs:295-330 | a key absent from the second parent is copied. A matching key yields either parent's copy, force-disabled only when a copy is disabled, and always disabled when the chance is at least 1 |
| GenomeCrossover.Crossover | src/genome/genome.rs:279-334 | the child has the fitter parent's nodes and key set, and every gene is inherited as above; genes only in the second parent never appear |
| GenomeCrossover.CrossoverSelf | src/genome/genome.rs:279-334 | crossing a genome with itself gives back the genome, whatever the coin flips |
| GenomeCrossover.CrossoverEdges | src/genome/genome.rs:292-331 | when the parents agree, every child connection has the fitter parent's endpoints |
| GenomeCrossover.CrossoverKeepsInvariants | src/genome/genome.rs:279-334 | the child of agreeing, well-formed parents is well formed, and agrees with every genome the fitter parent agrees with |
| GenomeDistance.MaxKey | src/genome/genome.rs:362-368 | the last element of the sorted key list is the largest key |
| GenomeDistance.HighestKey | src/genome/genome.rs:362-368 | sorting the key list and taking its last element yields the largest key |
| GenomeDistance.Count | src/genome/genome.rs:370-392 | a scan over `0 .. n` counts at most `n` keys |
| GenomeDistance.Scan | src/genome/genome.rs:370-392 | the counting loop over `0 .. max(h1, h2)` computes the count of its test |
| GenomeDistance.ScanBoth | src/genome/genome.rs:359-427 | a count is the node scan plus the connection scan |
| GenomeDistance.CountMatchingGenes | src/genome/genome.rs:359-427 | keys present in both genomes, over both key spaces |
| GenomeDistance.CountDisjointGenes | src/genome/genome.rs:429-499 | the node scan applies the excess test (`h < i`) and the connection scan the disjoint test (`h > i`) |
| GenomeDistance.CountExcessGenes | src/genome/genome.rs:501-570 | keys one genome lacks that lie above its highest key, over both key spaces |
| GenomeDistance.CountSymmetric | src/genome/genome.rs:370-392 | each scan counts the same with the genomes swapped |
| GenomeDistance.CountZeroIff | src/genome/genome.rs:370-392 | a count is 0 exactly when no scanned key passes the test |
| GenomeDistance.CountsSymmetric | src/genome/genome.rs:359-570 | matching, excess and disjoint counts are symmetric in the two genomes |
| GenomeDistance.SelfHasNoExcessOrDisjoint | src/genome/genome.rs:429-570 | a genome has no excess and no disjoint genes against itself |
| GenomeDistance.TopKeyNeverCounted | src/genome/genome.rs:370-371 | the scan range excludes its upper bound, so a key above the other genome's keys is never counted as excess or disjoint |
| GenomeDistance.WeightDiffSum | src/genome/genome.rs:585-608 | the summed absolute weight difference is non-negative and 0 when no gene matches |
| GenomeDistance.MatchingIgnoresBounds | src/genome/genome.rs:602-607 | the matching test does not depend on the highest keys |
| GenomeDistance.AverageWeightDiff | src/genome/genome.rs:572-611 | the loop computes the sum of absolute weight differences over matching genes, divided by their number (NaN when none match) |
| GenomeDistance.WeightDiffSumSymmetric | src/genome/genome.rs:585-608 | the weight-difference sum is symmetric |
| GenomeDistance.WeightDiffSumSelf | src/genome/genome.rs:585-608 | against itself the weight-difference sum is 0 |
| GenomeDistance.WeightDifferenceSymmetric | src/genome/genome.rs:572-611 | the average weight difference is symmetric |
| GenomeDistance.CompatibilityDistance | src/genome/genome.rs:341-357 | computes `c1·excess + c2·disjoint + c3·W` with `n = 1` |
| GenomeDistance.DistanceSymmetric | src/genome/genome.rs:341-357 | the distance is symmetric in the two genomes |
| GenomeDistance.DistanceSelf | src/genome/genome.rs:341-357 | a genome's distance to itself is 0, or NaN exactly when every connection key is negative or the highest one, so that no gene is scanned as matching |
| GenomeDistance.DemoSelfDistanceNaN | src/genome/genome.rs:585-610 | the demo genome is at NaN distance from itself, so `same_species` (src/genome/species/species.rs:107-111) rejects it for every threshold |
| GenomeDistance.TopKeyCountedInclusive | src/genome/genome.rs:513 | with the highest key scanned, a key above all of the other genome's keys is counted as excess |
| GenomeDistance.DistanceSelfInclusive | src/genome/genome.rs:341-357 | with the highest key scanned, a genome with a non-negative innovation number is at distance 0 from itself, so every positive threshold admits it |
| Sorting.SortDesc | src/genome/species/species.rs:69-73 | the descending `sort_by` is a permutation |
| Sorting.SortDescSorted | src/genome/species/species.rs:69-73 | the result is in non-increasing key order |
| Sorting.SortDescIdempotent | src/genome/species/species.rs:69-73 | sorting twice is sorting once |
| Sorting.SortDescHeadIsMax | src/genome/species/species.rs:75-80 | the head of a sorted non-empty roster has the largest fitness |
| Sorting.AsSortedVec | src/genome/genome.rs:615-624 | a permutation in ascending order |
| Sorting.KeysToVec | src/genome/genome.rs:628-639 | every key exactly once, in some order |
| Sorting.KeepFirst | src/genome/species/species.rs:52-61 | the remove-in-loop keeps exactly the first `cutoff + 1` elements, or all when fewer |
| FloatValues.Div | src/genome/species/species.rs:128 | a quotient, NaN exactly for 0/0 |
| FloatValues.AddScaled | src/genome/genome.rs:356 | adding a scaled term keeps NaN and otherwise adds |
| NodeGenes.NewNodeGene | src/genome/node_gene.rs:17-24 | stores type, id and layer |
| NodeGenes.NodeGene.GetType | src/genome/node_gene.rs:26-28 | returns the stored type |
| NodeGenes.NodeGene.GetId | src/genome/node_gene.rs:30-32 | returns the stored id |
| NodeGenes.NodeGene.GetLayer | src/genome/node_gene.rs:34-36 | returns the stored layer |
| NodeGenes.NodeGene.SetLayer | src/genome/node_gene.rs:38-40 | changes the layer only |
| NodeGenes.SetLayerKeepsIdentity | src/genome/node_gene.rs:38-40 | the last layer set wins, and setting the current layer changes nothing |
| ConnectionGenes.NewConnectionGene | src/genome/connection_gene.rs:16-24 | stores all five fields, which the getters return |
| ConnectionGenes.ConnectionGene.GetInNode | src/genome/connection_gene.rs:26-28 | returns the source node |
| ConnectionGenes.ConnectionGene.GetOutNode | src/genome/connection_gene.rs:30-32 | returns the target node |
| ConnectionGenes.ConnectionGene.GetWeight | src/genome/connection_gene.rs:34-36 | returns the weight |
| ConnectionGenes.ConnectionGene.IsExpressed | src/genome/connection_gene.rs:38-40 | returns the expressed flag |
| ConnectionGenes.ConnectionGene.GetReleased | src/genome/connection_gene.rs:42-44 | returns a gene equal to itself |
| ConnectionGenes.ConnectionGene.Disable | src/genome/connection_gene.rs:46-48 | clears `expressed`; the endpoints, innovation and weight are kept |
| ConnectionGenes.ConnectionGene.GetInnovation | src/genome/connection_gene.rs:50-52 | returns the innovation number |
| ConnectionGenes.ConnectionGene.SetWeight | src/genome/connection_gene.rs:54-56 | changes the weight only |
| ConnectionGenes.DisableIdempotent | src/genome/connection_gene.rs:46-56 | disabling is idempotent, changes nothing on a disabled gene, and commutes with setting the weight |
| Innovation.Counter.constructor | src/genome/counter.rs:6-10 | a new counter is at 0 |
| Innovation.Counter.GetInnovation | src/genome/counter.rs:12-16 | increments the state and returns the new value, which the state then equals |
| Innovation.FirstInnovations | src/genome/counter.rs:12-16 | three successive calls on a fresh counter return 1, 2 and 3 |
| FitnessGenomes.NewFitnessGenome | src/evaluator/fitness_genome.rs:10-12 | the getters return the stored genome and fitness |
| FitnessGenomes.FitnessGenome.GetFitness | src/evaluator/fitness_genome.rs:14-16 | returns the stored fitness |
| FitnessGenomes.FitnessGenome.GetGenome | src/evaluator/fitness_genome.rs:18-20 | returns the stored genome |
| FitnessGenomes.NewEmpty | src/genome/species/species.rs:28 | a scored genome with fitness 0 |
| FitnessGenomes.SumFitnessSorted | src/genome/species/species.rs:214-233 | re-sorting a roster keeps its fitness sum |
| Configuration.NewConfig | src/config.rs:80-109 | stores population size, generation count and species limit as given, with the default coefficients, threshold 1.0, staleness limit 15 and `dt` 3.0 |
| Configuration.DefaultRatesAreProbabilities | src/config.rs:87-99 | every default rate and probability lies in [0, 1] |
| Configuration.Config.GetPopulationSize | src/config.rs:111-113 | returns the stored population size |
| Configuration.Config.GetGenerationCount | src/config.rs:115-117 | returns the stored generation count |
| Rosters.SortedRoster | src/genome/species/species.rs:68-85 | a permutation of the players in non-increasing fitness order; the average is kept |
| Rosters.SortedRosterProgress | src/genome/species/species.rs:75-84 | An empty roster is unchanged. The best never drops and bounds every player. If the top fitness strictly beats the best: staleness 0, best and rep from the top player. Otherwise staleness + 1, with best and rep kept |
| Rosters.KillSurvivors | src/genome/species/species.rs:44-64 | false with only the re-sort below 2 players; otherwise exactly the first `len / 2 + 1` sorted players remain, each at least as fit as every removed one |
| Rosters.RefreshFacts | src/genome/species/species.rs:131-137 | the players are sorted and the best is the top fitness. Staleness rises by 2, or ends at 1 when the first sort improved the best. The average is kept |
| Rosters.Pick | src/genome/species/species.rs:224-230 | the roulette index is a player index or "none" |
| Rosters.PickIsFirst | src/genome/species/species.rs:222-230 | the chosen index is the first whose running sum exceeds the draw |
| Rosters.PickFromIsFirst | src/genome/species/species.rs:224-230 | the same, for the scan from any starting index |
| Rosters.PickHits | src/genome/species/species.rs:224-230 | a draw below the fitness sum always finds a player |
| Rosters.SelectFacts | src/genome/species/species.rs:214-233 | the parent is a player; the roster is only ever reordered, keeping its sum, and is untouched when the draw is below the sum |
| Rosters.SelectedTwice | src/genome/species/species.rs:169-170 | both parents are players, and the roster keeps its players and its sum |
| Rosters.Scale | src/genome/species/species.rs:153-155 | each fitness divided by `n`, genomes kept |
| Rosters.ScaleSum | src/genome/species/species.rs:153-155 | dividing every fitness by `n` divides the sum by `n` |
| Rosters.SharingFacts | src/genome/species/species.rs:151-156 | fitness sharing keeps length, order and genomes and divides the sum by the length |
| Speciation.SpeciesParents | src/genome/species/species.rs:174-186 | the fitter parent first, the first drawn one on a tie |
| Speciation.Species.constructor | src/genome/species/species.rs:26-40 | one player, the representative with fitness 0; best 0, average 0, staleness 0 |
| Speciation.Species.SortPlayers | src/genome/species/species.rs:68-85 | the new state is the sorted transition above |
| Speciation.Species.Kill | src/genome/species/species.rs:44-64 | the result and new state are the truncation transition above |
| Speciation.Species.SameSpecies | src/genome/species/species.rs:107-112 | true exactly when the threshold is strictly greater than the distance from the representative |
| Speciation.Species.AddPlayer | src/genome/species/species.rs:116-118 | appends the player; nothing else changes |
| Speciation.Species.GetAverageFitness | src/genome/species/species.rs:120-129 | stores the sum into the average field, and returns the sum over the length (NaN for an empty roster) |
| Speciation.Species.RefreshBestFitness | src/genome/species/species.rs:131-137 | the new state is the refresh transition above, and the result is the new best |
| Speciation.Species.GetBestFitness | src/genome/species/species.rs:139-141 | returns the best-fitness field |
| Speciation.Species.GetBestPlayer | src/genome/species/species.rs:143-147 | re-sorts (with staleness tracking) and returns the top player |
| Speciation.Species.FitnessSharing | src/genome/species/species.rs:151-156 | every fitness divided by the roster length, in place |
| Speciation.Species.SelectParent | src/genome/species/species.rs:214-233 | the roulette choice, or the best player after a re-sort when no running sum exceeds the draw |
| Speciation.Species.SelectParents | src/genome/species/species.rs:169-170 | two selections in sequence, each on the state the previous one left |
| Speciation.Species.GenerateOffspring | src/genome/species/species.rs:160-212 | Fitness 0. The child is the crossover of the two selected parents, fitter first, grown through exactly the gates its three draws open, each when its draw is below its rate (`GrownFrom`). The counters move as the split and connection stages dictate (`CountersAdvanced`). It is well formed, its keys are within the counters, and it agrees with every genome that agrees with the old roster |
| Speciation.Species.RefreshAll | src/genome/species/species.rs:91-93 | every species gets the refresh transition |
| Speciation.Species.RefreshAt | src/genome/species/species.rs:91-93 | one loop pass refreshes one species and leaves every other species of the list as it was |
| Speciation.Species.OrderByBest | src/genome/species/species.rs:95-102 | a permutation of the species in ascending best fitness |
| Speciation.Species.SortSpecies | src/genome/species/species.rs:89-103 | refreshes every species, then orders the list by ascending best fitness |
| Breeding.GrowingKeepsStructure | src/genome/species/species.rs:192-209 | the pipeline only adds connection and node keys, adds no node when the add-node gate is closed, and with every gate closed the child is the crossed genome itself |
| Breeding.SplitOrSameGrows | src/genome/genome.rs:227-270 | the add-node mutation only adds node and connection keys |
| Breeding.WeightsOnlyKeepsExpressed | src/genome/genome.rs:50-63 | weight mutation leaves the add-node mutation the same expressed connections to choose from |
| Breeding.MutateChild | src/genome/species/species.rs:192-209 | Each gate opens exactly when its draw is below its rate; add-node also needs its flag. A closed gate leaves its stage's genome as it was. An open weight gate runs the weight-mutation loop, with its rate facts. An open add-node gate splits an expressed connection with fresh keys whenever one exists, and changes nothing otherwise. An open connection gate adds one accepted connection or none. The node counter moves by 1 exactly when a split happens. The connection counter moves by 2 for a split, plus at most 1 when the connection gate is open. Well-formedness and agreement are kept |
| Breeding.AddNodeGate | src/genome/species/species.rs:197-202 | A closed gate (flag off, or draw not below the rate) changes nothing. An open gate on a genome with an expressed connection always splits one, taking the node counter's next value and the connection counter's next two as keys. With none expressed nothing changes. Well-formedness and agreement are kept |
| Breeding.SplitStep | src/genome/genome.rs:245-270 | a split under fresh counter values is well formed, stays within the counters and keeps agreement |
| Breeding.Connected | src/genome/genome.rs:193-202 | an accepted insert under the counter's new value is well formed and keeps agreement |
| Breeding.Breed | src/genome/species/species.rs:174-209 | a crossover of the two given pool members, grown through exactly the gates its three draws open, with the counters moving as `MutateChild` states for the crossed genome, and the invariants above |
| Evaluation.EvaluatorParents | src/evaluator/evaluator.rs:139-151 | the strictly fitter parent first, the second drawn one on a tie |
| Evaluation.Scored | src/evaluator/evaluator.rs:73-79 | one pair per genome, in population order, with the provider's fitness |
| Evaluation.Score | src/evaluator/evaluator.rs:73-79 | the scoring loop builds exactly those pairs |
| Evaluation.SurvivorsFacts | src/evaluator/evaluator.rs:82-104 | `len / 10 + 1` entries are available, the ranking is sorted, and every survivor's genome comes from the population |
| Evaluation.Rank | src/evaluator/evaluator.rs:69-104 | the ranking is the scored population sorted by non-increasing fitness; the survivors are its first `len / 10 + 1` entries and form a well-formed pool within the counters |
| Evaluation.Reproduce | src/evaluator/evaluator.rs:121-184 | Either a crossover of two survivors grown through whichever of the weight and connection gates opened, the add-node gate closed, or a clone of a survivor after the weight-mutation loop with its rate facts. It is well formed and within the counters, the node counter is unchanged, and it agrees with every genome that agrees with the pool |
| Evaluation.GenerationSize | src/evaluator/evaluator.rs:116-120 | the refilled size is `max(population_size, 1)` |
| Evaluation.ExtendGeneration | src/evaluator/evaluator.rs:173-183 | appending such a child keeps the new generation well formed, mutually agreeing, and agreeing with the pool |
| Evaluation.AddOffspring | src/evaluator/evaluator.rs:121-184 | one loop pass appends one child of the survivors and keeps the generation invariants |
| Evaluation.AllChildrenAppend | src/evaluator/evaluator.rs:121-184 | appending a child of the survivors keeps every genome after the first a child of the survivors |
| Evaluation.FillGeneration | src/evaluator/evaluator.rs:116-185 | the fittest genome first, then children until `max(population_size, 1)` entries; the node counter is never advanced |
| Evaluation.Evolve | src/evaluator/evaluator.rs:69-185 | ranking, survivors and the refilled, well-formed population within the counters |
| Evaluation.CopyGenomes | src/evaluator/evaluator.rs:188-191 | the copy loop reproduces the next generation exactly |
| Evaluation.Populate | src/evaluator/evaluator.rs:51-57 | exactly `population_size` genesis genomes |
| Evaluation.Evaluator.constructor | src/evaluator/evaluator.rs:28-42 | default configuration, empty lists, an empty fittest genome with fitness 0, and two fresh counters at 0 |
| Evaluation.Evaluator.Init | src/evaluator/evaluator.rs:44-65 | adopts the configuration, fills `population_size` genesis genomes, clears the three lists and restarts both counters at 0 |
| Evaluation.InitCounterCollision | src/evaluator/evaluator.rs:63-64 | after the restart, the demo's default genome holds a key above the counter, and the first accepted add-connection overwrites its connection 1 instead of adding one |
| Evaluation.Evaluator.InitContinuing | src/evaluator/evaluator.rs:44-65 | the corrected `init`: the caller's counters are kept, and the new population is well formed and within them |
| Evaluation.Evaluator.EvaluateGeneration | src/evaluator/evaluator.rs:67-192 | The results hold the scored population in non-increasing fitness order, and the survivors are its first `len / 10 + 1` entries. The fittest is the top entry, and its genome leads the new population of `max(population_size, 1)` genomes. Every other genome is a crossover child or a weight-mutated clone of survivors. `genomes` equals `next_generation`. The invariants and counter bounds are kept, and the node counter is unchanged |
| Evaluation.Evaluator.Record | src/evaluator/evaluator.rs:90-117 | stores the ranking, survivors, fittest entry and generations; configuration and counters untouched |
| Evaluation.Evaluator.GetFittestGenome | src/evaluator/evaluator.rs:194-196 | returns the fittest genome, changing nothing |
| Evaluation.Evaluator.GetGenomeAmount | src/evaluator/evaluator.rs:198-200 | returns the population size, changing nothing |
| Evaluation.Evaluator.GetGenomes | src/evaluator/evaluator.rs:202-204 | returns the population, changing nothing |
| Evaluation.Evaluator.GetLastGenerationResults | src/evaluator/evaluator.rs:206-208 | returns the last results, changing nothing |

## Left out

- In-place updates of genomes and genes: each operator returns the new value rather than mutating, so aliasing of a genome is not modelled. Counters, species and the evaluator are objects.
- Random distributions: every draw is a parameter or an arbitrary choice. The normal sample of weight mutation is an arbitrary real. Probabilities are not modelled.
- Floating point: weights and fitness are `real`, with no rounding. NaN appears only as 0/0: in the average weight difference with no matching gene, and in the average fitness of an empty roster. The NaN ordering of `sort_by` (`unwrap_or(Equal)`) is not modelled.
- i32 and usize widths: counters and keys are unbounded integers, so wrap-around of the innovation counter is not modelled.
- HashMap iteration order: the loops over keys and values visit them in an unspecified order. Where the source's result depends on that order (the crossover coin flips, which connection the add-node mutation picks), the result is stated for every order.
- Diagnostics: `println!` calls (src/genome/genome.rs:205, 229; src/evaluator/evaluator.rs:112-115) are left out.
- The debugging printer, `main`, the re-export file and the output-clearing script are not part of this model.
- The provider traits (src/evaluator/evaluator.rs:211-217) become plain functions `Genome -> real` and `Genome -> Genome`. So the genesis provider is deterministic, and `init` fills the population with identical copies.
- GenomeMutation.AddConnectionMutation: requires an acyclic connection graph, because the source's worklist has no visited set and never ends on a cycle. It also requires a non-empty node map when an attempt runs, because `gen_range(0, 0)` panics.
- GenomeMutation.AddNodeMutation: requires every connection's endpoints to be present and every gene stored under its own key, where the source `unwrap`s the node lookups.
- GenomeCrossover.Crossover: requires both parents to keep every connection under its own innovation number. The source looks up the second parent by the first parent's innovation field.
- GenomeDistance.CountMatchingGenes, GenomeDistance.CountDisjointGenes, GenomeDistance.CountExcessGenes, GenomeDistance.CompatibilityDistance and Speciation.Species.SameSpecies: require each genome to have a node and a connection, since the source panics on an empty key list.
- GenomeDistance.AverageWeightDiff: models the f64 `0.0 / 0.0` as NaN and no other float behaviour.
- Speciation.Species.SelectParent: the draw is a parameter in `[0, 1 + Σ fitness)`, the range `gen_range` gives it, so the loop that computes `fitness_sum` is folded into that precondition.
- Speciation.Species.GenerateOffspring, Breeding.Breed and Evaluation.Evaluator.EvaluateGeneration: require the roster or population to be well formed, acyclic and mutually agreeing on shared innovation numbers, with all keys at most the counters. These are the invariants the operators preserve, and they keep the mutations from panicking or looping.
- Evaluation.Evaluator.EvaluateGeneration: its requirement that keys be at most the counters is not met right after the as-written `init` (see Findings), so the model covers the evaluator only from the corrected initialisation on. It requires at least one genome, where the source panics at `get(0).unwrap()`.
- Speciation.Species.SortSpecies: requires distinct species objects, which the source's `Vec<Species>` guarantees by ownership.
- The random draw that gates add-node mutation in `evaluate_generation` is modelled as having no effect, since the call it gates is commented out (src/evaluator/evaluator.rs:159-166).
- `Config::new` is called with one argument and `NodeGene::new` with two, against their three-parameter definitions. The model calls `NewConfig(0, 0, 0)` in the evaluator's constructor, and the new hidden node's layer is left unconstrained.
- `FitnessGenome::new_empty` and the public `fitness`/`genome` fields that species.rs uses are modelled as `NewEmpty` and as datatype fields.
- A speciated generational loop, stale-species killing and species quotas are not present in the evaluator and are not modelled.

## Findings

| source | as written | input that shows it | evidently intended | confidence | as-written member | corrected member |
|---|---|---|---|---|---|---|
| src/evaluator/evaluator.rs:63-64 | `init` restarts both innovation counters at 0, although the default genome was built with innovation numbers from other counters | the demo genome (inputs 1 and 2, output 3, connection 1 from 2 to 3): the first accepted add-connection, from 1 to 3, gets innovation 1 and overwrites connection 1. From then on innovation number 1 names 2 → 3 in the other genomes and 1 → 3 in the child, so the population no longer agrees on shared innovation numbers (`Consistent`, `PopulationOk`). A crossover can then combine genes into dangling endpoints or a cycle, and the add-connection worklist never ends on a cycle; this is why `EvaluateGeneration` requires that agreement | the counters continue above every innovation number already in the population | high; not executed | Evaluation.InitCounterCollision | Evaluation.Evaluator.InitContinuing |
| src/genome/genome.rs:585 | every scan loops `for i in 0..indices`, which stops below the highest key | the demo genome against itself: its only innovation number, 1, is the highest, so no gene matches and the average weight difference is 0 / 0 = NaN; `same_species` compares the threshold with NaN, which is false, so the genome is not of its own species. The same bound keeps the top key from ever counting as excess | every scan includes the highest key (`0..=indices`) | high; not executed | GenomeDistance.DemoSelfDistanceNaN | GenomeDistance.DistanceSelfInclusive |

`Speciation.Species.SameSpecies` keeps the distance as written, since that is what the source computes; `GenomeDistance.DistanceInclusive` and its lemmas stand beside it.
