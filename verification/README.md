# GenesisBlock: a verified model of the plan validator, the oracle and their neighbours

A Dafny model of the self-contained algorithms and protocols of GenesisBlock,
with proofs of what each is for.  `dafny verify dfyconfig.toml` checks the whole
project.

| file | what it models |
|---|---|
| `QueryDag.dfy` | validation of a v2 query plan, ending in a worklist over in-degree counters |
| `Oracle.dfy` | the bitemporal reference oracle: replay with in-place closing, reads at a commit about a valid time |
| `OracleLog.dfy` | what the oracle answers, read off the operation log alone |
| `Lowering.dfy` | the stack walks that bound and lower query expressions |
| `Meaning.dfy` | what expressions are worth, before and after lowering |
| `Traversal.dfy` | depth- and limit-bounded breadth-first search over a key-value store |
| `Corpus.dfy` | the embedding file that survives a cut at any byte and resumes |
| `Admission.dfy` | query permits, request futures, blocking jobs and dropped futures |
| `RankFusion.dfy` | reciprocal-rank fusion, in its two versions |
| `SchemaValidator.dfy` | the report validator and its located errors |
| `Exposition.dfy` | label escaping and the Prometheus page, against a reader for the part of that format it uses |
| `Embedding.dfy` | padded batches and masked pooling of the embedding sidecar |
| `Decimal.dfy` | canonical decimals of commits and frontiers |
| `HandleRegistry.dfy` | integer handles of the React Native bridge |
| `Json.dfy`, `Prelude.dfy` | JSON documents; characters, string order and sequence facts |

## How to read it

Loops stay loops: each method follows the source's loop and is proved against a
function or a predicate that does not mention the loop, and the lemmas are about
that function or predicate.  Where one source function nests several loops, the
inner ones are methods of their own.

- **Query plans.**  `Validate` accepts exactly the sound plans, a rejection names
  the first defect (which is unique), and the visiting order on acceptance is
  topological.  A *schedule* is any order in which ready nodes can be taken; the
  worklist theorem is about all of them, so neither map iteration order nor pop
  order matters.
- **Oracle.**  `b` in `a + b` rewrites versions that `a` wrote, yet a read at any
  commit up to the end of `a` sees what it saw before `b`.
- **Oracle log.**  `LogAnswer` keeps no state: it counts commits, reads the log
  backwards for the newest version shown, and looks for a logged edge.  The
  state machine is proved to give these answers and to raise these faults.
- **Meaning.**  `Execute` follows the executor of lowered trees, eager and from left
  to right; `Mean` reads the source expression in three-valued logic and looks
  functions up without regard to case.  Neither mentions lowering.
- **Lowering.**  `Resume` is what two stacks still have to do; each walk keeps it
  equal to `Denote`, which has no stack, and `Lower` is plain recursion that lowers
  the subject of BETWEEN once.  `Extent` counts nodes and depth of the built tree
  and knows nothing of the preflight that predicts them.
- **Traversal.**  `AtDistance` is the length of a shortest walk, walks being plain
  sequences; nothing in it refers to the search.  `InDiscoveryOrder` speaks of the
  stored lists only, and with the set of nodes reached it leaves one answer.
- **Corpus.**  `RunEffect` says what one run does to a file of any origin.
  `HistoryIsSafe` is about any history of runs that starts without a file, each
  with its own limit and batch size, cut or failing anywhere.  Chunks whose
  vectors have another width than the first stop a run; `Usable` counts the
  chunks before the first of those.  The script takes any batch size but completes
  a request only with a positive one: with `--batch -1` the range is empty and the
  run reports success without writing a missing row; with `--batch 0` it raises.
  `UndisturbedRunExact` and `RequestCompleteExact` say which runs complete.
- **Admission.**  The comment in the coverage handler asks that a permit be kept
  until the scan ends even if the client disconnects.  The query handlers do not
  meet that: with one permit, `n` clients that start a query and disconnect leave
  `n` jobs running (`QueryJobsUnbounded`).  `PromiseKeptIffNeverAbandons` is the
  exact condition: every running job has a permit throughout a run iff no step
  drops the future of a query request whose job is running.  `RunningJobsExact`
  counts the running jobs of any reachable state, and `CapacityBoundsJobs` follows.
- **Rank fusion.**  `IsTop` says what a result is; with the tie-break it is unique,
  without it the scores are.  `Contested` is a condition on the input: two ids
  tie and fewer than `k` score above them.  The versions can return different ids
  exactly then (`VersionsAgreeExactly`), and every result the definition admits is
  returned for some map order (`EveryTopArises`).

Numbers are unbounded, except the 64-bit integers of expressions.  Scores, pooled vectors and the schema's numbers are
exact reals.  Errors carry their cause as data, not as message text.

## Model

| member | source | states |
|---|---|---|
| QueryDag.Validate | src/uee_v2.rs:265-341 | accepts exactly the plans whose header, ids, parameters and inputs are sound and whose input relation has no cycle; a rejection is the first defect in check order; an accepted visiting order is topological |
| QueryDag.ChainAccepted | src/uee_v2.rs:265-341 | the chain h0, h1, ..., each node reading from the one before, is a sound plan of contract `query-ir.v2` iff it has 1 to 10000 nodes, and is rejected for its node count otherwise |
| QueryDag.RingRejected | src/uee_v2.rs:318-339 | the same nodes closed to a ring are rejected as cyclic at every admitted length, a self-loop included |
| Prelude.IdentifierGrows | src/uee_v2.rs:51-58 | which single characters are identifiers and which character may follow one, as character ranges |
| QueryDag.ScheduleDecidesAcyclicity | src/uee_v2.rs:318-339 | for every order of taking ready nodes until none is left: as many taken as there are nodes iff there is no closed walk of any length, self-loops and repeated inputs included, and then the order is topological |
| QueryDag.VisitIndependentOfOrder | src/uee_v2.rs:318-336 | any two exhausted schedules visit the same nodes, so map and pop order change neither the count nor the verdict |
| QueryDag.StuckScheduleHasCycle | src/uee_v2.rs:337-339 | nodes left over after the drain contain a concrete cycle |
| QueryDag.TopologicalOrderExcludesCycles | src/uee_v2.rs:297-340 | an order with every input before its consumer rules out closed walks of every length |
| QueryDag.ScheduleNoDup | src/uee_v2.rs:323-336 | each node is visited at most once, so the drain ends |
| QueryDag.PayOne | src/uee_v2.rs:326-334 | a counter is positive when it is decremented, and the counters stay equal to the unvisited input occurrences |
| QueryDag.ReadEdges | src/uee_v2.rs:297-316 | in-degrees and child lists record every input occurrence; otherwise the first unknown input in reading order is reported |
| QueryDag.Drain | src/uee_v2.rs:318-336 | the drain takes only ready nodes and stops with none ready; the counter is the number taken |
| QueryDag.CollectIds | src/uee_v2.rs:277-283 | succeeds iff all ids are identifiers and distinct; otherwise names the first bad or repeated id |
| QueryDag.DiagnosisUnique | src/uee_v2.rs:265-341 | a plan has at most one first defect, and a sound plan has none |
| Oracle.TimeTravelIsReplay | tools/reference_oracle.py:25-84 | after operations A and then B, a read at any commit up to the end of A gives the same props and window as over A alone, for every node and valid time; nodes B adds read as absent |
| Oracle.MarkedQueryIsLatestThen | tools/reference_oracle.py:49-50 | a query at a marker is answered as the latest query would have been when the marker was set, edge check and raised errors included; only a document that did not exist yet reads as no rows where the earlier query raises |
| Oracle.ClosedAtMostOnce | tools/reference_oracle.py:51-65 | a closed version is not the last of its node and no later operation changes it |
| Oracle.BoundaryReadIsOpen | tools/reference_oracle.py:69-111 | a marked or latest read without valid time finds the newest version begun by then, and it is open; it finds none iff the node had no version by then |
| Oracle.SupersedeShows | tools/reference_oracle.py:51-65 | after a supersede a latest read without valid time, or at or after the fixed successor time, gives the new props, open; an earlier valid time the previous version covers gives its props, closed |
| Oracle.AddNodeShows | tools/reference_oracle.py:27-37 | after adding a version a latest read from its valid time on gives its props, open |
| Oracle.ReplaySound | tools/reference_oracle.py:25-65 | every reachable state has increasing commits per node, each closed version followed by one that starts on the next commit, and no marker between the two |
| Oracle.ReplayExtends | tools/reference_oracle.py:25-65 | later operations only append, or close the open last version with a later commit |
| Oracle.CandidatesUnchanged | tools/reference_oracle.py:69-84 | later closings and later versions are invisible to the candidate filter at an earlier commit |
| Oracle.ReplayInPlace | tools/reference_oracle.py:20-67 | the loop with in-place closing computes the replay, or the exception it raises |
| Oracle.GraphCase | tools/reference_oracle.py:19-114 | all queries answered over the replayed state, or the first exception |
| OracleLog.AnswerFromLog | tools/reference_oracle.py:69-111 | a query over a replayable log gives the belief told by the log, read backwards, iff an edge hub to doc was logged by the commit read and is not for later times; otherwise it raises; an unknown marker or document raises, a document not yet begun gives no rows |
| OracleLog.CaseFromLog | tools/reference_oracle.py:19-114 | the first operation that cannot be replayed decides the outcome, then the first query that cannot be answered; otherwise each id holds the answer of the last query that has it |
| OracleLog.ReplayFromLog | tools/reference_oracle.py:25-67 | a log can be replayed iff every kind is known and every superseded node was added before; otherwise the first offender is raised |
| OracleLog.ToldIsBelieved | tools/reference_oracle.py:25-84 | for every node, commit and valid time the versions with their in-place closings show what one backward reading of the log tells |
| Lowering.LoweringExact | src/query/hql2/lower.rs:34-339 | lowering succeeds iff nothing is wrong with any visited node (names, `count(*)`, IN lists, JSON constants) and the expression is within bounds; the tree built then has at most 10000 nodes and depth 128; out of bounds the failure names a bound that is exceeded, within bounds it is what is wrong with the first unsound node in source order; `expression_stack` is never raised |
| Lowering.LowerExpression | src/query/hql2/lower.rs:139-339 | the building walk with two stacks returns what the recursive lowering does, first failure included, after the preflight |
| Meaning.LoweringKeepsMeaning | src/query/hql2/lower.rs:199-333 | in every environment of parameters, columns and functions the lowered tree is worth what the source expression is, errors included: each operator, BETWEEN with its copied subject, IN, IS NULL, `count(*)`, names in any case, and the typed literals |
| Meaning.SameBinary | src/query/hql2/exec.rs:742-827 | the executor's operator on the lowered side equals the three-valued reading of the source operator, for all values |
| Meaning.ExecuteRange | src/query/hql2/lower.rs:308-325 | the two comparisons under AND, subject evaluated twice, are worth one range test |
| Lowering.FailuresInSourceOrder | src/query/hql2/lower.rs:150-194 | operands fail from left to right, bounds after the subject, a call's name before its arguments |
| Lowering.PreflightExact | src/query/hql2/lower.rs:34-137 | preflight accepts iff every IN has a list, the syntax nests at most 128 deep and the expanded tree has at most 10000 nodes and depth 128; a rejection names a bound that is really exceeded |
| Lowering.Preflight | src/query/hql2/lower.rs:34-137 | the measuring walk with two stacks returns the verdict that `PreflightExact` is about |
| Lowering.ShapeOfLowered | src/query/hql2/lower.rs:85-131 | nodes and depth computed by preflight are those of the tree that lowering builds, the copied BETWEEN subject included |
| Lowering.BuildIsLower | src/query/hql2/lower.rs:144-333 | within the depth bound a stackless walk that visits the BETWEEN subject twice gives the tree or failure of the recursion that lowers it once |
| Lowering.ResumeEntered | src/query/hql2/lower.rs:50-83 | pushing a node back with its children in reverse order leaves the outcome of both stacks unchanged, for either walk |
| Lowering.LowerExact | src/query/hql2/lower.rs:144-333 | the recursion succeeds iff every visited node is sound, and fails with `f` iff `f` is what is wrong with the first node, in source order, that is not |
| Lowering.TowersAccepted | src/query/hql2/lower.rs:96-104 | BETWEENs nested in their subject are accepted up to 10 levels, nested in a bound up to 63, for every atom |
| Traversal.UnlimitedExact | benches/rocksdb_bench.py:52-75 | without a limit: each node at shortest distance 1..d once, nearest first, and nothing else; equivalently the nodes other than the start that a walk of 1..d steps reaches |
| Traversal.Traverse | benches/rocksdb_bench.py:52-75 | the nested loops with early return give the first max(limit, 1) elements of the unlimited answer, in discovery order, for every depth and limit |
| Traversal.UnlimitedInOrder | benches/rocksdb_bench.py:57-74 | nodes appear in the order of discovery: each is listed by an earlier one, by that of its first lister, and among the same lister by first position in its stored list |
| Traversal.OnlyAnswer | benches/rocksdb_bench.py:52-75 | a duplicate-free sequence of the nodes reached in discovery order is the unlimited answer; there is no other |
| Traversal.AnswerExact | benches/rocksdb_bench.py:66-71 | the limited answer is the prefix of min(max(limit, 1), size) elements, in discovery order |
| Traversal.DeeperExtends | benches/rocksdb_bench.py:57-75 | a smaller depth or limit gives a prefix of the answer for a larger one |
| Traversal.NextLevel | benches/rocksdb_bench.py:60-73 | from the sphere and ball of radius k one round makes those of radius k + 1 |
| Traversal.RemainderByLevel | benches/rocksdb_bench.py:60-74 | finding neighbours one at a time in loop order equals finding them level by level |
| Corpus.HistoryIsSafe | benchmark/gen_corpus_bge_m3.py:106-147 | in every history of runs the file is a byte prefix of the one true encoding, no run loses or misplaces a whole row, and a run that ends by itself leaves whole rows only, as many as it reports |
| Corpus.UndisturbedRunExact | benchmark/gen_corpus_bge_m3.py:92-147 | after any history, a run with something requested that no failure or kill ends: with a positive batch size it reports the larger of the rows before and the number of chunks the limit asks for, spelled out, iff those are usable, else it stops over ragged vectors; with a negative one it reports the rows before; with zero it raises; a reported count is the number of chunks whose encoding the file exactly is |
| Corpus.RequestedCount | benchmark/gen_corpus_bge_m3.py:92-93 | limit 0 asks for all chunks, a positive limit L for the first min(L, all), a negative one for the first max(0, all + L) |
| Corpus.RowIsChunk | benchmark/gen_corpus_bge_m3.py:136-141 | row i of the file, at its byte offsets, is the packed vector of chunk i |
| Corpus.RequestCompleteExact | benchmark/gen_corpus_bge_m3.py:112-147 | after such a run the requested rows are there iff they were before, or the batch size is positive and the requested chunks are usable |
| Corpus.RunIsSafe | benchmark/gen_corpus_bge_m3.py:112-147 | the same for one run on any prefix of the encoding, outcome by outcome |
| Corpus.WholeRowsAreEncoded | benchmark/gen_corpus_bge_m3.py:112-121 | dropping the torn row of any prefix leaves exactly the rows of the first size / row-size chunks |
| Corpus.RaggedIsUnusable | benchmark/gen_corpus_bge_m3.py:133-135 | a run stops over ragged vectors only when a requested chunk has another width |
| Corpus.CorpusFile.Run | benchmark/gen_corpus_bge_m3.py:82-147 | one run keeps the whole rows and appends the missing ones up to where it fails or is killed, for a file of any origin; undisturbed runs end by themselves |
| Corpus.CorpusFile.Resume | benchmark/gen_corpus_bge_m3.py:112-124 | the torn row is dropped and the number of rows already there returned |
| Corpus.CorpusFile.EmbedRest | benchmark/gen_corpus_bge_m3.py:125-142 | the batch loop appends the encoding of the remaining chunks, or of those before the failing batch |
| Admission.PermitConservation | src/router.rs:768-801 | in every reachable state free permits, permits in futures and permits in jobs add up to the capacity |
| Admission.RunningJobsExact | src/router.rs:930-967 | running jobs + free permits + permits of futures without a running job = capacity + orphans, so the capacity is exceeded iff the orphans outnumber those permits |
| Admission.PromiseKeptIffNeverAbandons | src/router.rs:768-801 | over any run, no job ever runs without a permit iff no step drops the future of a query request whose job is running |
| Admission.UnpermittedIsOrphan | src/router.rs:768-801 | a running job without a permit is exactly an orphan, and a coverage request never leaves one |
| Admission.CapacityBoundsJobs | src/router.rs:768-801 | when no step drops a query future whose job is running, running jobs never exceed the capacity |
| Admission.CoverageNeverAbandons | src/router.rs:768-801 | runs of coverage requests alone never do so |
| Admission.QueryJobsUnbounded | src/router.rs:930-967 | with at least one permit, for every n some run ends with n running query jobs and all permits free |
| Admission.QuiescenceRestoresPermits | src/router.rs:896-898 | when nothing is pending every permit is free again, however the requests ended |
| Admission.EverythingCanFinish | src/router.rs:768-801 | from every reachable state some run without arrivals and without dropped futures ends every job, answers exactly those who waited or were answered, and frees every permit |
| Admission.AnyoneMayLeave | src/router.rs:768-801 | a waiting client of either style may disconnect at any time; its job can still end and every permit comes back |
| Admission.QueryMayReturnEarly | src/router.rs:930-967 | a query may fail before its job is spawned, without losing its permit |
| Admission.RejectedExactlyWhenFull | src/router.rs:896-907 | an arriving request is rejected iff futures and jobs hold all permits |
| RankFusion.RrfTieBroken | benches/moat_bench.rs:247-257 | min(k, distinct ids) distinct ids, sorted by score and then id, every omitted id after every returned one, for every map order |
| RankFusion.RrfMapOrder | benches/moat_libsql.rs:102-113 | the same with ties in any order |
| RankFusion.TieBrokenTopUnique | benches/moat_bench.rs:255-256 | with the tie-break there is only one such result |
| RankFusion.VersionsAgree | benches/moat_libsql.rs:100-113 | both versions return the same sequence of scores, and the same ids when no returned id ties |
| RankFusion.VersionsAgreeExactly | benches/moat_libsql.rs:100-113 | the ids agree for every map order iff no two ids tie with fewer than k above them |
| RankFusion.EveryTopArises | benches/moat_libsql.rs:110-113 | each result that the definition without tie-break admits is the first k ids of some order of the score map that is already sorted |
| RankFusion.RankInMapOrder | benches/moat_libsql.rs:111-113 | an order of the map that is already sorted is left alone by the stable sort, so its first k ids are returned |
| RankFusion.VersionsDiffer | benches/moat_libsql.rs:100-113 | two ids that each head their own list, k = 1: one version returns the lesser, the other can return the greater |
| RankFusion.FusionIgnoresListOrder | benches/moat_bench.rs:247-257 | permuting the ranked lists does not change the result |
| RankFusion.DominanceKept | benches/moat_bench.rs:247-257 | if a precedes b in every list that holds b and no list repeats an id, a is placed above b whenever b is returned |
| RankFusion.Accumulate | benches/moat_bench.rs:248-253 | the map holds for each id the sum of its reciprocal ranks over all lists |
| RankFusion.TwoListsOutweighOne | benches/moat_bench.rs:248-253 | an id at rank r (from zero) of two lists scores above the head of a third iff r < 61, and ties at r = 61 |
| SchemaValidator.NoErrorsIffConforms | benchmark/verify_report.py:39-75 | no error is added iff the value conforms to the schema at every depth, with type names, limits and last members spelled out |
| SchemaValidator.ErrorsExact | benchmark/verify_report.py:57-75 | an error is reported at a path iff that path leads through well-typed objects and arrays to a value with that very defect |
| SchemaValidator.RelaxedAcceptsMore | benchmark/verify_report.py:57-75 | dropping required names anywhere in the schema never rejects an accepted value |
| SchemaValidator.StrictImpliesEnvelope | benchmark/verify_report.py:109-115 | a report the full schema accepts passes the relaxed envelope used for other benchmarks |
| SchemaValidator.EnvelopeExact | benchmark/verify_report.py:109-115 | the envelope reports exactly the errors of the full schema less the names other than `pass` missing from the results |
| SchemaValidator.ErrorList.Validate | benchmark/verify_report.py:57-75 | the recursion only extends the list, by the errors of the value in order |
| Exposition.ReadEscaped | src/router.rs:1438-1449 | a reader of the format gets any label value back and stops at the closing quote, which is the first unescaped one |
| Exposition.EscapeLabelValue | src/router.rs:1438-1449 | the escaped value is one line and reads back, whatever follows |
| Exposition.ReadRendered | src/router.rs:1513-1519 | every rendered sample line reads back to its name, label and value |
| Exposition.ScrapeRoundTrip | src/router.rs:1456-1585 | scraping a rendered page gives back all samples in order and nothing else |
| Exposition.PageReadsBack | src/router.rs:1475-1584 | the page for n collections with any names has exactly 32 + 7n lines and scrapes back to the samples of the thirteen metrics |
| Exposition.PageShowsFigures | src/router.rs:1475-1584 | the samples of the page are exactly the figures of the snapshot, each under its own metric name and collection |
| Exposition.PageDescribed | src/router.rs:1475-1584 | the comments read back as a help text and the type gauge for each of the thirteen metrics, in order |
| Exposition.RenderMetrics | src/router.rs:1456-1585 | the pushed page reads back, has 32 + 7n lines, and shows exactly the figures of the snapshot |
| Embedding.Embed | genesisrag17-worker/src/embedder.py:71-82 | if the model's output at the real tokens of an aligned row does not depend on its batch, the i-th vector is that of the i-th text alone behind `query: ` or `passage: `, and the request fails exactly on another mode or when some text alone would fail |
| Embedding.EmbedEncoded | genesisrag17-worker/src/embedder.py:78-82 | batches of at most 32 cover each text once, in order |
| Embedding.RunEncodedBatch | genesisrag17-worker/src/embedder.py:46-68 | one padded batch equals its texts run alone |
| Embedding.PoolIgnoresPadding | genesisrag17-worker/src/embedder.py:62-63 | the pooled vector depends neither on the padded length nor on the output at padded or masked positions |
| Embedding.AloneIsNormalisedMean | genesisrag17-worker/src/embedder.py:46-68 | with a mask of zeros and ones, the vector of one text times the norm of the mean is the mean of the 384-component outputs over the attended ones of its first 512 tokens, unpadded; there is none iff that norm is not positive |
| Embedding.AttentionMeetsAssumptions | genesisrag17-worker/src/embedder.py:46-61 | a model that attends to the positions its mask switches on satisfies that assumption |
| Embedding.EachAppend | genesisrag17-worker/src/embedder.py:79-81 | embedding a concatenation is the concatenation of the embeddings, failing if either does |
| Decimal.DecimalsAreNumerals | src/uee_v2.rs:73-81 | the accepted strings are exactly the printed naturals, and two accepted strings are equal iff their numbers are |
| Decimal.ShowParse | src/uee_v2.rs:73-81 | printing the number of an accepted string gives the string back |
| HandleRegistry.HandlesAreNeverReused | react-native-genesisdb/ios/GenesisDbModule.swift:39-67 | over every interleaving a handle yields only the instance it was minted for, and nothing once removed |
| HandleRegistry.ClosedAtMostOnce | react-native-genesisdb/ios/GenesisDbModule.swift:80-130 | each instance is closed at most once, and never while a handle still reaches it |
| HandleRegistry.NothingLeaks | react-native-genesisdb/ios/GenesisDbModule.swift:80-130 | when nothing is registered or in flight every instance opened was closed exactly once |
| HandleRegistry.OperationsExtendRuns | react-native-genesisdb/ios/GenesisDbModule.swift:39-67 | a registry that mirrors a state of a run may take any of its operations there, and the run followed by what the operation makes of that state is a run |
| HandleRegistry.InstanceRegistry.Insert | react-native-genesisdb/ios/GenesisDbModule.swift:43-48 | a handle not in use is minted and only it is added, which is the insertion step of the interleaving |
| HandleRegistry.InstanceRegistry.RemoveAll | react-native-genesisdb/ios/GenesisDbModule.swift:62-66 | the registry is emptied and each registered instance returned once per handle, which is the step of the interleaving |
| HandleRegistry.GenesisDb.Close | react-native-genesisdb/src/index.ts:68-74 | one object issues at most one native close |

## Left out

- The HQL pattern builder (`src/query/ast.rs`), which copies parts of a parse tree into a structure.
- The rest of `src/query/hql2/lower.rs`: patterns, selections and query stages.
- The storage engine, its journal, index and projection are not part of this model.
- The semantic checks of `verify` after the schema, and the relational oracle case.
- Namespaces, hashes, budgets and the request envelope around a query plan.
- HTTP routing, authentication, response bodies, SDK clients, FFI, JNI and N-API layers.
- Floating point: scores, pooling and schema numbers are real numbers, so not-a-number values and rounding are not modelled; list-order invariance does not carry over to rounded sums.
- Oracle.GraphCase: operations are given as data with their fields present; a missing dictionary key other than an unknown node or marker is not modelled, and version dictionaries are values in lists, since no other name refers to them after the operation.
- Meaning.LoweringKeepsMeaning: binding checks that refuse a tree before it is run (types, arities, contextual nulls) and resource budgets are not modelled; functions, `lower` and `length` among them, are parameters; fractions are reals, so overflow to infinity does not arise; a range test evaluates a function in its subject to the same value both times.
- Lowering.LowerExpression: `json_literal`, which makes a JSON constant of an object, is a parameter; spans are not modelled, and additions that machine words could overflow are unbounded, since every addend is bounded before.
- Traversal.Traverse: node numbers are naturals, as ingested; an adjacency entry with a negative number, which the key encoding refuses, is not modelled.
- Corpus.CorpusFile.Run: the embedding service is a function of the chunk that answers with one vector for each chunk and a non-empty first vector; extraction, normalisation and packing are one function; writing the manifest is not modelled. A kill before the file is opened leaves it as it was, a later one keeps a byte prefix of what was to be appended; the chunks and their vectors are the same in every run of a history.
- Admission: permits, futures and jobs are steps of a state machine; scheduling of blocking threads and the storage lock are not modelled. A future is dropped only at its await point.
- RankFusion.Sort: the library sort is any sorting permutation; here it is an insertion sort.
- SchemaValidator.Errors: error locations are lists of keys and indices instead of text; objects keep their members in document order, and a key is read from its last occurrence.
- Exposition.RenderMetrics: help texts are parameters without line breaks, the memory estimate is already printed; the wording of the help lines is not modelled. The reader takes one label at most and no timestamps.
- Embedding.Embed: the tokenizer, the model session and the norm are functions; that a model's output at the real tokens of an aligned row (ids, mask and types of one length) does not depend on the other rows or the padding is assumed; `AttentionMeetsAssumptions` shows a mask-attending model for which it holds. Non-finite norms do not arise over the reals.
- HandleRegistry: the actor's methods are atomic steps; opening a database and calls through a live handle are not modelled.
