# Pawrly: models of the engine's state machines and tree algorithms

Pawrly is a federated SQL engine. This project models the parts of it that decide something on
their own, apart from the query planner and the transports, and proves what they are relied on for:

- **Configuration**: the `include:` walk, the merge of a source over its `from:` fragment, and the
  assembly of both (`IncludeWalk`, `Overlay`, `Assemble`), variable scopes and the two walks over
  variable references (`Scope`, `Variables`), metric tokens and the search for metric cycles
  (`Tokens`, `MetricCycles`).
- **Calendar grains and rollups**: which grains nest (`Grains`), and when a rollup may stand for its
  rows (`Rollups`).
- **Rendering**: calls and `${param:...}` templates (`CallSql`, `Template`).
- **The Parquet cache**: the manifest and its merging between processes (`Manifest`,
  `ManifestMerge`), what every operation does to the disk, with crashes (`CacheDisk`), the manager
  and the cached scan (`CacheManager`), and column projection (`Projection`).
- **The activity log**: all interleavings of recording, flushing, pruning and scanning (`Activity`),
  and the store's own methods (`ActivityStore`).
- **The engine at run time**: the DuckDB connection pool (`Pool`), the life of a query
  (`Lifecycle`), and registration and reload of sources (`Reload`).

`Prelude`, `Text`, `Names`, `Json` and `MapSum` hold the vocabulary they share.

Code that updates state in place is modelled by classes and methods with loops; each is proved
against a specification, and the lemmas are about that specification. Concurrent protocols are step
systems: a step is one access to shared state, a run is any sequence of enabled steps, and the
theorems named `EveryRun` hold after every run. In `Manifest`, `ManifestMerge`, `CacheDisk` and
`CacheManager` a rename is atomic, a file that was synced before its rename is complete after it,
and the operating system frees the lock of a dead process. Clocks, fresh file names, directory
listings, glob results, parsed files, stored variable values and the outcome of I/O are inputs, so
the theorems hold for all of them.

Some properties one might expect do not hold of the code. Each has a lemma that says exactly when it
does:

- A quarantine goes on to move the file away when it could not write the manifest, and then leaves
  an entry without a file: `CacheDisk.QuarantineExactly`. A later write of the table repairs that
  (`CacheDisk.WriteHeals`), and no scan of a rollup returns wrong rows meanwhile
  (`CacheManager.CacheManager.Scan`).
- An operation may run without an extension for which `ensure_extension` had returned before its
  checkout ended (`Pool.EarlierReadMayMiss`): what it runs with is settled exactly when the checkout
  reads the list of required extensions (`Pool.LoadedExactly`). Operations that start later keep the
  promise (`Pool.LaterOperationsHaveIt`).
- Template parameters are replaced one after the other, in the order the map yields them. That
  order matters exactly when a value may spell, from one of its `$` on, another parameter's hole:
  `Template.OrderMattersExactly`.
- A registration that fails has already taken what the source had: its schema and its tasks. The
  source stays in the map with its old definition, so a later reload with that definition finds
  nothing to do and restores nothing (`Reload.LostByFailure` runs this). After a successful reload
  every configured source has its schema and tasks exactly if those kept as they are had them
  before: `Reload.LocalEngine.ReloadConfig`.
- A source may be named `__rollups__` and then shares the bucket of the rollups' tasks: registering
  rollups leaves every source its tasks exactly if there are no rollups or no such source has a
  bucket (`Reload.LocalEngine.RegisterRollups`, with the input in `Reload.SharedBucket`).
- A manifest that exists but cannot be read is taken for an empty one, and the next update that
  commits drops every earlier entry, pinned ones included. For the cache that is exactly when an
  entry is lost that no delta takes out (`Manifest.LostExactly`, `ManifestMerge.LostOnlyUnread`); of
  the activity log's files none is forgotten in any other way (`Activity.ForgottenOnlyBlind`).
- A rollup table that cannot be registered leaves the refresh tasks started before it running with
  nobody to hold them: `Reload.LocalEngine.RegisterRollups` says how many.
- A query that yielded an error may still report ok, if its consumer polls on
  (`Lifecycle.OkAfterError`): the status tells exactly whether the end was seen
  (`Lifecycle.EveryRun`). With a consumer that stops at the first error or end that is the same as
  having yielded no error (`Lifecycle.StatusExactly`).
- A scan reports the whole schema, not the projected one, exactly when there is no batch to take it
  from: `CacheManager.Plan`, and `CacheManager.EmptyKeepsWholeSchema` for an instance.

Two lemmas are about variants, not about the code: `Activity.PendingFirstWouldRepeat` shows why a scan
reads the manifest before the pending records, and `Overlay.GroupingMattersExactly` shows what keeps
the merge from being associative, although no path of the code layers three trees.

## Model

| member | source | states |
|---|---|---|
| Assemble.AssembleAll | crates/pawrly-config/src/assemble.rs:63-154 | Assembly up to the models succeeds exactly when the reachable files form a tree, every file's content passes, every collected source expands, and no source or function name repeats. The collected sources, secrets, functions, models and variables are then all that the reachable files declare, file by file in document order; the result holds them with the sources expanded, and every failure names its cause |
| Assemble.ExpandAll | crates/pawrly-config/src/assemble.rs:95-99 | All sources expand relative to the file that declares them, or the first that does not is reported |
| Assemble.FindDuplicate | crates/pawrly-config/src/assemble.rs:101-154 | A key is reported if and only if one repeats |
| Assemble.KeysExactly | crates/pawrly-config/src/assemble.rs:101-135 | A source's key is the text of its `name`, a function's is its `namespace` and `name` joined by a dot, and there is none without them |
| Assemble.NameKept | crates/pawrly-config/src/assemble.rs:624-646 | Expansion never changes a source's name |
| IncludeWalk.CollectAll | crates/pawrly-config/src/assemble.rs:63-93 | The walk succeeds exactly when the files reachable from the root form a tree and every file's content passes; it then entered each of them once, in document order, and its accumulators hold exactly what those files declare: one block for each file, a bare source being a block of one, each source with its file and an include route to it. A reported error is a real one |
| IncludeWalk.GatheredIsCollected | crates/pawrly-config/src/assemble.rs:439-511 | What is declared is collected: for every reachable file in document order a block of its own sources, secrets, functions and models, nothing between the blocks, and its variables at its path |
| IncludeWalk.BareSourceOnce | crates/pawrly-config/src/assemble.rs:439-450 | A file that is one bare source has exactly one index among the origins, and there stands its body |
| IncludeWalk.PreorderIsDocumentOrder | crates/pawrly-config/src/assemble.rs:380-382 | A file's own content comes before that of the files it includes, and those come in the order of its matches |
| IncludeWalk.ContentByKind | crates/pawrly-config/src/assemble.rs:399-437 | Which checks apply to the root, to a bare source and to a fragment |
| IncludeWalk.IncludeTree | crates/pawrly-config/src/assemble.rs:303-349 | The display walk succeeds on exactly the same graphs, read errors aside, and returns their include tree |
| IncludeWalk.Walk.Collect | crates/pawrly-config/src/assemble.rs:384-555 | The recursive walk over one file: it terminates on cyclic graphs, restores the chain, follows every match below the file once, and adds the contributions of the subtree in preorder |
| IncludeWalk.Walk.CollectIncludes | crates/pawrly-config/src/assemble.rs:513-552 | The loop over a file's patterns and matches expands all of them in merge order |
| IncludeWalk.Walk.CollectMatch | crates/pawrly-config/src/assemble.rs:517-551 | One match: an already visited canonical path is an include cycle only in a graph that is no tree |
| IncludeWalk.Walk.TakeContent | crates/pawrly-config/src/assemble.rs:399-511 | The content checks on a file, and what it adds to each accumulator |
| IncludeWalk.Walk.TakeBody | crates/pawrly-config/src/assemble.rs:439-511 | A single-source fragment adds its body, path and chain and nothing else; any other file adds its lists; both reject malformed fields |
| IncludeWalk.Walk.TakeLists | crates/pawrly-config/src/assemble.rs:452-507 | Sources, origins and chains grow by the same number; secrets, functions and fragment variables are taken with them |
| IncludeWalk.Walk.TakeModels | crates/pawrly-config/src/assemble.rs:557-580 | Models are appended with their file as origin; anything but a list is refused |
| IncludeWalk.Walk.BuildIncludeNode | crates/pawrly-config/src/assemble.rs:315-349 | The recursive display walk over one file, with the same guarantees as `Collect` |
| IncludeWalk.Walk.BuildMatch | crates/pawrly-config/src/assemble.rs:325-346 | One match of the display walk |
| IncludeWalk.MeetAgain | crates/pawrly-config/src/assemble.rs:519-525 | Meeting a visited canonical path again proves that the reachable files form no tree |
| IncludeWalk.FinishedIsTree | crates/pawrly-config/src/assemble.rs:384-555 | Once every match of every entered file has been followed without meeting one again, the reachable files form a tree and are exactly those entered |
| IncludeWalk.UnfoldingUnique | crates/pawrly-config/src/assemble.rs:31-40 | A file has at most one include tree |
| IncludeWalk.WalksAgree | crates/pawrly-config/src/assemble.rs:303-349 | Both walks yield the same tree and the same preorder |
| IncludeWalk.SourceProvenance | crates/pawrly-config/src/assemble.rs:440-473 | Sources, origins and chains stay aligned, and each source's chain is an include route from the root to its origin, in which it is declared |
| IncludeWalk.SourcesAligned | crates/pawrly-config/src/assemble.rs:440-473 | The i-th origin and chain belong to the file that contributed the i-th source |
| IncludeWalk.ChainsAreRoutes | crates/pawrly-config/src/assemble.rs:513-552 | Every contribution carries the include route by which its file was reached |
| Overlay.DeepMerge | crates/pawrly-config/src/assemble.rs:652-665 | At every path the merged tree holds what the overlay holds there, nothing where the overlay has a leaf above, and else what the base holds |
| Overlay.ExpandFrom | crates/pawrly-config/src/assemble.rs:584-648 | Laying the body over the fragment and putting name and kind back equals merging the whole body without `from`; what comes out has no `from`; every refusal has its cause |
| Overlay.FragmentExactly | crates/pawrly-config/src/assemble.rs:607-624 | A fragment is refused exactly for not being a mapping, for a field `name` or `kind`, or for a `from:` of its own |
| Overlay.MergeBody | crates/pawrly-config/src/assemble.rs:626-647 | Taking name and kind out of the overlay and inserting them after the merge changes nothing, since the fragment sets neither |
| Overlay.PutAfterMerge | crates/pawrly-config/src/assemble.rs:639-645 | A field the base lacks may be inserted after the merge instead of merged |
| Overlay.MergeAbsorbs | crates/pawrly-config/src/assemble.rs:652-665 | Merging the same overlay again changes nothing |
| Overlay.GroupingMattersExactly | crates/pawrly-config/src/assemble.rs:652-665 | Two groupings of three layers give the same tree if and only if the last one nowhere branches at a leaf of the middle one, over something of the first that it leaves alone |
| Overlay.ScalarInTheMiddle | crates/pawrly-config/src/assemble.rs:652-665 | A scalar in the middle layer is such a case |
| Scope.MergeInto | crates/pawrly-config/src/variables.rs:236-240 | The overlay's definitions win, all others stay |
| Scope.SourceScope | crates/pawrly-config/src/loader.rs:257-277 | A name resolves to the innermost of the source's own declarations, the fragments along its chain, and the global ones |
| Scope.InnermostAlong | crates/pawrly-config/src/loader.rs:257-277 | After any number of fragments each name has its last declaration so far |
| Variables.ResolveRefs | crates/pawrly-config/src/variables.rs:347-415 | The rewriting walk succeeds if and only if every string of the source becomes something and every variable to bind has a spec. At every position outside the `variables` block a string that is no reference stays; a dynamic reference becomes its stored literal, or stays and is bound; a static one becomes the first there is of stored literal, secret or environment value, default, or null. The bindings are one for each id, in the order of first use. Otherwise it fails with the first failing string in document order |
| Variables.ResolutionMeans | crates/pawrly-config/src/variables.rs:347-415 | The same of the specification, in terms that name neither its actions nor its order of events |
| Variables.RefExactly | crates/pawrly-config/src/variables.rs:870-874 | A string is a reference to `NAME` exactly if it is white space around `${var:NAME}` |
| Variables.LeafExactly | crates/pawrly-config/src/variables.rs:376-399 | What a string becomes, and when it leaves a variable to bind |
| Variables.StaticExactly | crates/pawrly-config/src/variables.rs:503-602 | What a static variable is: stored literal, else secret or environment value by its input key, else default, else null if not required; texts are read as the declared type |
| Variables.SourceLeavesInOrder | crates/pawrly-config/src/variables.rs:355-412 | The strings walked are all those of the source outside its `variables` block, in document order |
| Variables.Resolver.Walk | crates/pawrly-config/src/variables.rs:368-415 | One subtree: its leaves are processed in order, and the rewritten subtree is returned |
| Variables.Resolver.WalkString | crates/pawrly-config/src/variables.rs:376-399 | One string: what is no reference stays, a static reference or a dynamic one with a stored literal is replaced by its value, a dynamic one without is bound once; an unknown name or a failing value is an error |
| Variables.Resolver.WalkItems | crates/pawrly-config/src/variables.rs:400-404 | Array items are walked in order and rewritten in place |
| Variables.Resolver.WalkFields | crates/pawrly-config/src/variables.rs:405-411 | Object fields are walked in order, keys stay |
| Variables.Resolver.WalkSource | crates/pawrly-config/src/variables.rs:355-363 | The same at the top of a source, where the `variables` field is passed over |
| Variables.CollectStaticRefs | crates/pawrly-config/src/variables.rs:429-488 | The report has one entry for each static variable referred to, in the order of the first references, with its id, kind and input key, and says whether there is a value for it |
| Variables.ReportInOrder | crates/pawrly-config/src/variables.rs:450-488 | The same for any list of strings |
| Variables.Reporter.Collect | crates/pawrly-config/src/variables.rs:450-488 | One subtree of the read-only walk |
| Variables.WalksAgree | crates/pawrly-config/src/variables.rs:347-488 | Resolution succeeds if and only if every reference is declared, every reported static one resolves, and every dynamic one has a literal or builds its spec |
| Variables.StaticOnly | crates/pawrly-config/src/variables.rs:347-488 | Without dynamic references, resolution succeeds exactly when all reported references resolve |
| Variables.RunMeans | crates/pawrly-config/src/variables.rs:368-415 | The run over the leaves succeeds exactly when no leaf fails and every binding builds; the bindings are then those of `Bounds` |
| Variables.BoundsAreFirstUses | crates/pawrly-config/src/variables.rs:376-399 | Bindings are distinct, and come in the order in which their variable is first used |
| Variables.BoundsComplete | crates/pawrly-config/src/variables.rs:376-399 | Every dynamic reference without a literal has its binding |
| Variables.ReportSound | crates/pawrly-config/src/variables.rs:450-488 | Every reported reference is declared and occurs in a leaf |
| Variables.ReportComplete | crates/pawrly-config/src/variables.rs:450-488 | Every declared static reference in a leaf is reported |
| Variables.ReportDistinct | crates/pawrly-config/src/variables.rs:450-488 | No name is reported twice |
| Variables.RewriteAt | crates/pawrly-config/src/variables.rs:368-415 | At every position of a tree, only string leaves change, and a string leaf becomes its resolution; the shape and all keys stay |
| Variables.RewriteSourceFields | crates/pawrly-config/src/variables.rs:355-363 | The `variables` field is untouched, and below every other field each string leaf is replaced by its resolution |
| Tokens.DerivedTokens | crates/pawrly-core/src/semantic.rs:422-456 | The scanning loop computes the specification of a derived expression's tokens |
| Tokens.AcceptedExactly | crates/pawrly-core/src/semantic.rs:422-456 | An expression yields a list of tokens if and only if it is an alternation of text and braced bodies with those tokens, and there is at least one |
| Tokens.ScanShow | crates/pawrly-core/src/semantic.rs:422-456 | Scanning what was shown returns its tokens |
| Tokens.ScanShape | crates/pawrly-core/src/semantic.rs:422-456 | Whatever scans was the rendering of such an alternation |
| Tokens.WrittenRoundTrip | crates/pawrly-core/src/semantic.rs:422-456 | Members and filters written as braced tokens, padded or not, come back trimmed and in order; without a token it fails |
| MetricCycles.FindMetricCycles | crates/pawrly-config/src/validator.rs:251-302 | Names are reported if and only if some metric depends on itself; each reported one does; the report is sorted; an empty report comes with an evaluation order of all declared metrics. A depends on B if both are declared and the last metric named A mentions the dot-free name B: as a side of a ratio, as the member of a token of a well-formed derived expression, or as its measure |
| MetricCycles.EdgeExactly | crates/pawrly-config/src/validator.rs:254-266 | The edges of the graph are exactly those dependencies, its nodes the declared names |
| MetricCycles.MentionsExactly | crates/pawrly-core/src/semantic.rs:389-409 | The references of a metric without a dot are exactly the names it mentions, both sides of a ratio included |
| MetricCycles.CyclesExactly | crates/pawrly-config/src/validator.rs:254-302 | Cycles and orders of the graph are those of the dependencies |
| Names.BeforeExactly | crates/pawrly-config/src/validator.rs:300-301 | The order of the report is by code point at the first difference, a prefix first |
| MetricCycles.CycleSearch.Visit | crates/pawrly-config/src/validator.rs:268-292 | The recursive visit restores the stack, and leaves the node done, or on the stack and marked cyclic |
| MetricCycles.OrderExcludesCycles | crates/pawrly-config/src/validator.rs:251-302 | A topological order excludes every cycle |
| MetricCycles.RankFalls | crates/pawrly-config/src/validator.rs:251-302 | Along any path of the graph the rank falls |
| MetricCycles.AdjacencyKeepsLast | crates/pawrly-config/src/validator.rs:254-266 | The graph has every metric name, with the references of the last metric of that name |
| MetricCycles.DotFree | crates/pawrly-config/src/validator.rs:257-264 | Exactly the referenced names without a dot are edges |
| Grains.RollsUpExactly | crates/pawrly-core/src/semantic.rs:221-244 | `g.can_roll_up_to(c)` holds if and only if truncating to `c` after truncating to `g` equals truncating to `c`, for every instant |
| Grains.Nested | crates/pawrly-core/src/semantic.rs:221-244 | The direction for every allowed pair of grains and every instant |
| Grains.NotNested | crates/pawrly-core/src/semantic.rs:221-244 | For every refused pair an instant at which the truncations differ |
| Rollups.RollupOfRollup | crates/pawrly-engine/src/local.rs:486-510 | For SUM, COUNT, MIN and MAX, aggregating a rollup once more gives the rollup of the rows: the same buckets with the same results, for every list of rows |
| Rollups.RollupsAgreeExactly | crates/pawrly-core/src/semantic.rs:221-244 | That holds for all rows if and only if the finer grain can roll up to the coarser |
| Rollups.SafeExactly | crates/pawrly-semantic/src/rollup.rs:23-33 | `is_rollup_safe` holds exactly for the aggregates whose coarse results the fine ones determine at all; AVG and COUNT(DISTINCT) are not among them |
| Rollups.MergedIsAll | crates/pawrly-semantic/src/rollup.rs:23-33 | Merging the rows of each fine bucket, bucket by bucket, merges the rows of the coarse one |
| Rollups.AggregatesMean | crates/pawrly-semantic/src/rollup.rs:23-33 | MIN and MAX are the least and the greatest value of a bucket, COUNT the number of its rows with a value |
| Rollups.SafeDetermined | crates/pawrly-semantic/src/rollup.rs:23-33 | Tables with the same fine results have the same coarse ones |
| Rollups.UnsafeUndetermined | crates/pawrly-semantic/src/rollup.rs:23-33 | Two days on which the averages, or the distinct counts, agree and those of the month do not |
| Grains.TruncIs | crates/pawrly-core/src/semantic.rs:203-244 | Truncation yields the start of the one bucket that holds the instant |
| Grains.MonthLength | crates/pawrly-core/src/semantic.rs:203-244 | Months have the lengths of the Gregorian calendar, leap years included |
| CallSql.CallRoundTrip | crates/pawrly-core/src/function.rs:331-343 | A SQL reader with its own grammar of strings, numbers and booleans, run on a rendered call, recovers the namespace, the name, and every value in order with its quoting |
| CallSql.ListRoundTrip | crates/pawrly-core/src/function.rs:331-343 | The same for the list with anything after its closing parenthesis |
| CallSql.RenderInjective | crates/pawrly-core/src/function.rs:331-343 | Two calls render alike only if their names and arguments are equal |
| CallSql.BuiltByNew | crates/pawrly-core/src/function.rs:274-278 | An argument keeps its value, is quoted if its type is a string, and is bare only if that is safe |
| CallSql.BareExactly | crates/pawrly-core/src/function.rs:274-323 | An argument stands bare if and only if it is a literal of the grammar and its type is one of the listed names, in any letter case and with any white space around it |
| CallSql.BareChars | crates/pawrly-core/src/function.rs:281-299 | Safe bare literals are not empty and have no character that would end them |
| CallSql.SafeExactly | crates/pawrly-core/src/function.rs:281-299 | The code's test accepts exactly the booleans and the numbers of a literal grammar: sign, digits, point, digits, exponent |
| CallSql.NumberParses | crates/pawrly-core/src/function.rs:289-299 | Every number of the grammar is accepted |
| CallSql.ParsesToNumber | crates/pawrly-core/src/function.rs:289-299 | Whatever is accepted, other than a boolean, has the parts of such a number |
| Template.SubstituteParams | crates/pawrly-engine/src/local.rs:1671-1678 | Unless the parameters clash, replacing them one after the other, in whatever order the map yields them, fills all holes at once, and holes without a value stay |
| Template.OrderMattersExactly | crates/pawrly-engine/src/local.rs:1671-1678 | Every template is filled as if all at once in every order, and no two orders differ on any, if and only if the parameters do not clash: no value has a `$` from which it begins the hole of another, differently filled parameter |
| Template.ReplaceAllFills | crates/pawrly-engine/src/local.rs:1671-1678 | Without a clash, replacing the needles of any list of keys fills exactly the holes of those keys |
| Template.ClashShows | crates/pawrly-engine/src/local.rs:1671-1678 | A clash shows on a template of one hole and the rest of the other's needle, in two orders |
| Template.ReplaceChanges | crates/pawrly-engine/src/local.rs:1671-1678 | Replacing a needle that occurs by any other text changes the string |
| Template.DollarFreeNeverClash | crates/pawrly-engine/src/local.rs:1671-1678 | Values without `$` never clash |
| Template.ReplaceFills | crates/pawrly-engine/src/local.rs:1671-1678 | Where only its own holes begin a key's needle, replacing it fills exactly those |
| Template.HolesDiffer | crates/pawrly-engine/src/local.rs:1671-1678 | One key's needle does not occur at another key's hole |
| Template.SpelledHoleClashes | crates/pawrly-engine/src/local.rs:1671-1678 | A value that spells another parameter's hole clashes with it, unless that parameter's value spells it too |
| Template.OrderCanMatter | crates/pawrly-engine/src/local.rs:1671-1678 | For instance, a value that is another hole is filled in one order and left in the other |
| Template.HoleFilled | crates/pawrly-engine/src/local.rs:1671-1678 | Spelled out: the text between `${param:` and its closing brace names the parameter whose value takes its place |
| Manifest.ApplyMeans | crates/pawrly-engine/src/cache.rs:210-440 | Each delta (invalidate, quarantine, vacuum, drop, upsert) removes exactly the entries it names, adds at most its own, and keeps one entry per table |
| Manifest.ApplyExactly | crates/pawrly-engine/src/cache.rs:210-440 | The same, delta by delta, in terms of the key, path, origin and expiry of each entry |
| Manifest.RemoveFirstUnique | crates/pawrly-engine/src/cache.rs:210-217 | Removing the first match removes all of them, since keys are unique |
| Manifest.ReplayMeans | crates/pawrly-engine/src/cache.rs:432-465 | An entry is in the manifest if and only if some delta wrote it, and none since removed it or was applied to a manifest it could not read |
| Manifest.LostExactly | crates/pawrly-engine/src/cache.rs:446-478 | An entry that no later delta takes out, pinned or not, is lost exactly to a commit that could not read the manifest |
| Manifest.ReplayUnique | crates/pawrly-engine/src/cache.rs:432-440 | Each table has at most one entry |
| Manifest.PresentWasWritten | crates/pawrly-engine/src/cache.rs:432-465 | Every entry present was written by a delta that still lasts |
| Manifest.WrittenIsPresent | crates/pawrly-engine/src/cache.rs:432-465 | Every entry written by a delta that still lasts is present |
| ManifestMerge.EveryRun | crates/pawrly-engine/src/cache.rs:446-494 | For any number of managers and any interleaving, with failed reads and writes and crashes, the disk manifest is whole and equals the committed deltas in lock order, each applied to what its update read, and every memory copy is some earlier disk manifest |
| ManifestMerge.CommittedEntriesStay | crates/pawrly-engine/src/cache.rs:446-465 | No committed entry is lost but to a later commit that removes it or could not read the manifest |
| ManifestMerge.UpdateCommits | crates/pawrly-engine/src/cache.rs:446-455 | An update that meets no failure commits its delta, applied to what it read, and the manager remembers the result |
| ManifestMerge.LostOnlyUnread | crates/pawrly-engine/src/cache.rs:446-478 | On every run, a committed entry that no later delta takes out is still there if and only if every later commit could read the manifest |
| ManifestMerge.StepInv | crates/pawrly-engine/src/cache.rs:446-494 | Every step, failure and crash keeps the invariant |
| ManifestMerge.StepMonotone | crates/pawrly-engine/src/cache.rs:446-455 | The log only grows, and no process goes back to an older manifest |
| CacheDisk.CrashesAreSafe | crates/pawrly-engine/src/cache.rs:210-387 | After any sequence of operations, each of them stopped by a crash or an I/O error at any step or not, the manifest is whole, and where an entry points there is a complete file, with its whole result if it is a rollup; if every quarantine could unlist what it moved, no such file is missing |
| CacheDisk.OpGood | crates/pawrly-engine/src/cache.rs:210-387 | The same for every disk state an operation passes through |
| CacheDisk.WriteGood | crates/pawrly-engine/src/cache.rs:325-387 | Write-through and materialize: the file is complete before its entry appears |
| CacheDisk.RemoveGood | crates/pawrly-engine/src/cache.rs:210-231 | Invalidate and drop: the entry is gone before its file |
| CacheDisk.SetAsideGood | crates/pawrly-engine/src/cache.rs:233-261 | Quarantine, when it can unlist its entry |
| CacheDisk.ReclaimGood | crates/pawrly-engine/src/cache.rs:263-322 | Vacuum: entries are unlisted before any file goes |
| CacheDisk.QuarantineExactly | crates/pawrly-engine/src/cache.rs:233-261 | Quarantine leaves a consistent disk if and only if its manifest write succeeds or nothing is listed at that path |
| CacheDisk.WriteHeals | crates/pawrly-engine/src/cache.rs:325-359 | Writing the table again repairs the disk from the moment its file is in place |
| CacheManager.CacheManager.Open | crates/pawrly-engine/src/cache.rs:112-124 | Opening clears old temporary files and loads the manifest from disk |
| CacheManager.CacheManager.Fresh | crates/pawrly-engine/src/cache.rs:145-158 | A fresh entry is one of the table that has no expiry or one later than now; none is found only if every entry of the table has an expiry that is not later |
| CacheManager.ReadAfterWrite | crates/pawrly-engine/src/cache.rs:145-359 | After a successful write-through with a TTL, a read at `t` finds that entry if and only if `t < now + ttl`, and else none; under the other policies it always finds it |
| CacheManager.VacuumAfterWrite | crates/pawrly-engine/src/cache.rs:263-359 | A vacuum at `t` keeps that entry, and its file with its rows, under exactly the same condition |
| CacheManager.CacheManager.WithLockedManifest | crates/pawrly-engine/src/cache.rs:446-494 | The delta is applied to the manifest on disk, and memory becomes the result; an I/O error in locking or writing leaves the manifest and memory as they were |
| CacheManager.CacheManager.AtomicWriteParquet | crates/pawrly-engine/src/cache.rs:720-750 | Temporary file, sync, rename, or an I/O error at any of them; the manifest stays as it was |
| CacheManager.CacheManager.WriteThrough | crates/pawrly-engine/src/cache.rs:325-359 | Afterwards the entry, with its expiry by policy, is the only one of the table, its file is in place and nothing else is touched; or the I/O error is reported after some of the disk steps |
| CacheManager.CacheManager.Materialize | crates/pawrly-engine/src/cache.rs:361-391 | The pinned entry is listed, alone for its table, with its file in place, or an I/O error is reported after some of the disk steps |
| CacheManager.PinnedStays | crates/pawrly-engine/src/cache.rs:361-391 | A pinned entry never expires and survives every vacuum |
| CacheManager.CacheManager.TakeOut | crates/pawrly-engine/src/cache.rs:210-231 | Invalidate takes out exactly the entry of the table, drop exactly that of a materialized table of the name, each with its file and nothing else, and reports whether there was one; if the manifest cannot be written they report that and touch no file |
| CacheManager.CacheManager.SetCorruptAside | crates/pawrly-engine/src/cache.rs:233-261 | Quarantine: afterwards the table's file is not in its place but aside, or deleted if that fails; its entry is gone if that could be written; nothing else changes |
| CacheManager.CacheManager.CleanOldTmp | crates/pawrly-engine/src/cache.rs:840-869 | Deletes the old temporary files, and counts exactly the files and bytes that went |
| CacheManager.CacheManager.VacuumExpired | crates/pawrly-engine/src/cache.rs:280-293 | Deletes the files of the expired entries, counted exactly |
| CacheManager.CacheManager.VacuumUnreferenced | crates/pawrly-engine/src/cache.rs:295-314 | Deletes the data files no entry refers to, counted exactly |
| CacheManager.CacheManager.VacuumAll | crates/pawrly-engine/src/cache.rs:263-322 | Alone, a vacuum leaves exactly the surviving entries' files among the data files, keeps every materialized entry and every unexpired copy, and reports exactly the bytes, files and entries that went; if the manifest cannot be written it reports that and touches no file |
| CacheManager.VacuumDone | crates/pawrly-engine/src/cache.rs:263-322 | The same about the disk states a vacuum passes through |
| CacheManager.CacheManager.Scan | crates/pawrly-engine/src/cache.rs:627-672 | For a rollup, a hit, a miss and a read that fails all return the projection of the whole result, for every projection, however far the disk writes get, and also when listed files are missing; the disk stays good at each step, and whole if the quarantine or the write-through gets through. A hit that can be read serves the file's rows and leaves the disk as it is; anything else serves what was fetched, and caches it if the writes get through |
| CacheManager.CacheManager.FetchLive | crates/pawrly-engine/src/cache.rs:646-672 | The miss: what was fetched is served whether or not it could be cached |
| CacheManager.Plan | crates/pawrly-engine/src/cache.rs:661-672 | The batches are projected batch by batch; the reported schema is the projected one unless there is no batch |
| CacheManager.EmptyKeepsWholeSchema | crates/pawrly-engine/src/cache.rs:661-672 | For instance, a scan of one column of two that has no batch reports both columns |
| Projection.ProjectBatches | crates/pawrly-engine/src/cache.rs:683-718 | Projecting batches projects their rows, in order, and keeps the row count of the empty projection |
| Projection.ProjectBatchRows | crates/pawrly-engine/src/cache.rs:683-718 | One batch: the rows of its chosen columns are its rows' chosen columns |
| Projection.ReadBackKeepsRows | crates/pawrly-engine/src/cache.rs:752-780 | However the file is read in batches, its rows come back in order, and no batch is read only if there are no rows |
| Projection.AnyBatching | crates/pawrly-engine/src/cache.rs:752-780 | Every way to cut the rows into batches that are not empty is covered |
| Activity.EveryRun | crates/pawrly-engine/src/durable_activity.rs:132-212 | After every run each record is, as often as it was recorded, in exactly one of pending, in flight, kept files, forgotten files, dropped files, or lost to a failed flush; every kept file is listed and on disk with just its records, every forgotten one on disk; a file that is gone from the disk held only records older than the cutoff of its prune; no scan returned a record more often than it was recorded |
| Activity.ScanAccounts | crates/pawrly-engine/src/durable_activity.rs:167-191 | What a scan returns, exactly: all records so far but those in flight, those lost, and those of files it has not read, each of which was unreadable, dropped, forgotten, or listed only after the scan read the manifest |
| Activity.ForgottenOnlyBlind | crates/pawrly-engine/src/durable_activity.rs:231-264 | On every run in which each flush and prune could read the manifest, no file is forgotten |
| Activity.RecordedExactly | crates/pawrly-engine/src/durable_activity.rs:247-256 | The ledger holds exactly the records of the run, and without a failing flush nothing is lost |
| Activity.FlushLands | crates/pawrly-engine/src/durable_activity.rs:132-165 | A flush that meets no failure moves what is pending into one new file, listed at the end with its entry |
| Activity.FlushLoses | crates/pawrly-engine/src/durable_activity.rs:132-165 | A flush that fails loses exactly what it took |
| Activity.PruneLands | crates/pawrly-engine/src/durable_activity.rs:193-214 | A prune that meets no failure keeps exactly the entries not older than its cutoff, and deletes exactly the files of the others |
| Activity.DeletesOnlyOld | crates/pawrly-engine/src/durable_activity.rs:193-212 | A step takes a file off the disk, or changes it, only if it is a prune that found all its records older than its cutoff |
| Activity.StepStored | crates/pawrly-engine/src/durable_activity.rs:132-256 | Every step keeps published files that were not given up on disk, in the manifest, and in any manifest about to be written by an update that could read it |
| Activity.StepInv | crates/pawrly-engine/src/durable_activity.rs:132-256 | Every step of a record, flush, prune or scan keeps the invariant |
| Activity.RunsKeepInv | crates/pawrly-engine/src/durable_activity.rs:132-256 | So does every run from a state with the invariant |
| Activity.RecordedGrows | crates/pawrly-engine/src/durable_activity.rs:247-256 | What was recorded stays recorded, so a scan is bounded by any later ledger |
| Activity.EntryAccurate | crates/pawrly-engine/src/durable_activity.rs:139-160 | A manifest entry has its file's row count and extreme times |
| Activity.PendingFirstWouldRepeat | crates/pawrly-engine/src/durable_activity.rs:167-191 | Reading pending before the manifest would repeat a record on some run |
| ActivityStore.DurableActivityStore.constructor | crates/pawrly-engine/src/durable_activity.rs:76-100 | A new store is empty, and its flush threshold at least one |
| ActivityStore.DurableActivityStore.Record | crates/pawrly-engine/src/durable_activity.rs:247-256 | A record is added at the end, and pending stays below the threshold; only a flush that fails loses it, with all that was pending |
| ActivityStore.DurableActivityStore.Flush | crates/pawrly-engine/src/durable_activity.rs:132-165 | A flush moves pending into one listed file and loses nothing; one that cannot write or list the file loses exactly what it took |
| ActivityStore.DurableActivityStore.ReadBatches | crates/pawrly-engine/src/durable_activity.rs:167-191 | A scan returns all readable files' records and then pending; all records if every file is readable |
| ActivityStore.DurableActivityStore.Prune | crates/pawrly-engine/src/durable_activity.rs:193-214 | A file stays listed and on disk exactly if some record in it is not older than the cutoff |
| ActivityStore.PruneKeeps | crates/pawrly-engine/src/durable_activity.rs:193-214 | The same about any list of entries and disk |
| ActivityStore.SurvivesWhenRecent | crates/pawrly-engine/src/durable_activity.rs:193-214 | Comparing an entry's latest time with the cutoff decides about all of its records |
| Pool.EveryRun | crates/pawrly-engine/src/duckdb_pool.rs:54-89 | After every run free connections, connections out and tasks about to clone are at most the pool size; every running operation has the extensions it is owed; INSTALL of an extension succeeded at most once, offline never |
| Pool.StepInv | crates/pawrly-engine/src/duckdb_pool.rs:119-213 | Every step and every failure keeps the invariant |
| Pool.StepBounded | crates/pawrly-engine/src/duckdb_pool.rs:54-78 | In particular the bound, also between finding the list empty and cloning |
| Pool.CarriersHold | crates/pawrly-engine/src/duckdb_pool.rs:150-158 | Whoever has or is about to get a connection holds a permit |
| Pool.StepInstalls | crates/pawrly-engine/src/duckdb_pool.rs:160-195 | In particular that no INSTALL is repeated |
| Pool.OperationOwes | crates/pawrly-engine/src/duckdb_pool.rs:54-72 | An operation owes, until it ends, what was promised when it began |
| Pool.LaterOperationsHaveIt | crates/pawrly-engine/src/duckdb_pool.rs:160-213 | An operation that starts after `ensure_extension(x)` returned runs with `x` loaded, whatever happens meanwhile |
| Pool.OperationReturns | crates/pawrly-engine/src/duckdb_pool.rs:54-158 | An operation that meets no failure takes the last idle connection and puts it back with every required extension loaded |
| Pool.OperationAdds | crates/pawrly-engine/src/duckdb_pool.rs:54-158 | With no idle connection it opens one, which stays in the pool |
| Pool.EnsuredAtOnce | crates/pawrly-engine/src/duckdb_pool.rs:160-213 | Asking for an extension that is required already succeeds at once |
| Pool.LoadedExactly | crates/pawrly-engine/src/duckdb_pool.rs:54-72 | An operation runs with exactly what its connection had and what the list required when its checkout read it, whatever happens meanwhile; so it lacks `x` if and only if neither had `x` then |
| Pool.EarlierReadMayMiss | crates/pawrly-engine/src/duckdb_pool.rs:54-72 | An operation whose checkout had read the required list before may run without `x` |
| Lifecycle.EveryRun | crates/pawrly-engine/src/stream.rs:74-183 | After every run, with steps of other queries and cancellations between any two accesses of a poll or a drop: the active count is the number of guards that have not counted down and the registry holds exactly the queries not yet deregistered; a completion slot is set once, late in the drop; at most one Cancelled item appears with nothing but end after it; slot and status tell whether the end was seen, and the slot then the sum of the yielded rows, else 0 |
| Lifecycle.CountIsRegistry | crates/pawrly-engine/src/local.rs:945-966 | When no query is starting or being dropped, the count is the size of the registry, and both are the live guards |
| Lifecycle.StatusExactly | crates/pawrly-engine/src/stream.rs:122-183 | With a consumer that stops at the first error or end, the status is ok exactly if the end was yielded, and then no error or cancellation was |
| Lifecycle.OkAfterError | crates/pawrly-engine/src/stream.rs:240-250 | A consumer that polls on after an error may still end with status ok |
| Lifecycle.LateCancelUnseen | crates/pawrly-engine/src/stream.rs:219-235 | A cancellation after the look at the flag changes nothing about that poll |
| Lifecycle.CancelStops | crates/pawrly-engine/src/stream.rs:219-235 | On every run: after a cancellation that reaches a registered query between polls, its next item is the cancellation, unless it yielded one before, and every later item is an end |
| Lifecycle.CancelSeen | crates/pawrly-engine/src/stream.rs:219-235 | The very next poll yields the cancellation, whatever happens in between |
| Lifecycle.PollAfterCancel | crates/pawrly-engine/src/stream.rs:219-223 | The poll after that yields the end, when the guard is dropped, the slot filled and the query out of the registry |
| Lifecycle.CancelledEnds | crates/pawrly-engine/src/stream.rs:219-223 | It takes no more than the three steps of the drop |
| Lifecycle.NeverCancelled | crates/pawrly-engine/src/local.rs:1056-1066 | A query that no cancellation names never yields one |
| Lifecycle.AnswersShow | crates/pawrly-engine/src/stream.rs:236-255 | What the wrapped stream answers is what the consumer sees: the rows, the error, nothing, or the end |
| Lifecycle.NothingLeaks | crates/pawrly-engine/src/local.rs:945-961 | When no guard is left, the count is 0 and the registry empty |
| Lifecycle.StepInv | crates/pawrly-engine/src/local.rs:1056-1066 | Every registration, count, early failure, poll step, cancel and drop step keeps the invariant |
| Lifecycle.ActOk | crates/pawrly-engine/src/stream.rs:134-255 | Each step of a query keeps it in order, and only counting up, counting down and deregistering move it in and out of the count and the registry |
| Lifecycle.InstrumentedStream.constructor | crates/pawrly-engine/src/stream.rs:187-209 | The stream starts with its guard, no rows and nothing emitted |
| Lifecycle.InstrumentedStream.Poll | crates/pawrly-engine/src/stream.rs:211-255 | A set flag yields the cancellation once and then the end, without the wrapped stream being asked; otherwise its answer is passed on and counted. The polling code makes the steps of the protocol in order, with a late cancellation or without |
| Lifecycle.InstrumentedStream.TakeGuard | crates/pawrly-engine/src/stream.rs:134-183 | Dropping the guard fills the slot, which keeps its first value |
| Reload.LocalEngine.ReloadConfig | crates/pawrly-engine/src/local.rs:1396-1469 | A reload succeeds if and only if the configuration loads and every definition is in force already or can be registered. The map of sources is then that configuration and the report exactly the difference; all its sources have their schemas and tasks if and only if those kept as they are had them before. Else it names the first definition that fails: those before it are in force, the others as they were, and that source has lost its schema and tasks. Sources after are those before plus added minus removed; a configuration in force restarts nothing; no task is left running unheld |
| Reload.ServedExactly | crates/pawrly-engine/src/local.rs:1434-1457 | That condition: registering the new and changed definitions and removing the missing ones serves every configured source exactly when no kept definition had lost its schema or tasks |
| Reload.LostByFailure | crates/pawrly-engine/src/local.rs:753-862 | The input: after a failed reload with another definition, a reload with the old one succeeds with all zeros and leaves the source without schema and tasks |
| Reload.LocalEngine.ReloadTwice | crates/pawrly-engine/src/local.rs:1396-1469 | An immediate second reload succeeds, whatever registration would do by then, and reports all zeros |
| Reload.LocalEngine.RegisterNew | crates/pawrly-engine/src/local.rs:1435-1451 | All definitions are in force and the counters tell what that took, or the first failure is reported, those before it are in force and the failed one has lost its service |
| Reload.LocalEngine.ApplyDef | crates/pawrly-engine/src/local.rs:1438-1450 | One definition: a new one is added, one that serializes differently is replaced, any other left alone; it fails exactly if it would have to be registered and cannot be, and then has lost its schema and tasks |
| Reload.LocalEngine.RemoveMissing | crates/pawrly-engine/src/local.rs:1453-1457 | Exactly the sources the configuration no longer names are removed and counted |
| Reload.LocalEngine.RegisterSource | crates/pawrly-engine/src/local.rs:753-862 | Registration drops the schema and aborts the tasks of an earlier one, then brings its own of both; a reserved name changes nothing; a failure leaves the map of sources as it was, but the earlier schema and tasks are gone |
| Reload.LocalEngine.Enlist | crates/pawrly-engine/src/local.rs:802-862 | What follows when the backend has registered: the source is in the map, with its schema and its tasks |
| Reload.LocalEngine.AbortRefreshers | crates/pawrly-engine/src/local.rs:863-870 | A bucket's tasks are aborted and forgotten, all others live on |
| Reload.LocalEngine.RemoveSource | crates/pawrly-engine/src/local.rs:872-887 | A source goes with its schema and tasks; the result tells whether it was registered |
| Reload.LocalEngine.Spawn | crates/pawrly-engine/src/local.rs:803-840 | New tasks are held in a bucket of their own; no task, no bucket |
| Reload.LocalEngine.Hold | crates/pawrly-engine/src/local.rs:838-840 | Started tasks become held ones |
| Reload.LocalEngine.RegisterRollups | crates/pawrly-engine/src/preagg.rs:86-186 | The rollup tasks are replaced; every source keeps its tasks if and only if there are no rollups or no source with a bucket has the rollups' key as its name; it fails exactly if a table is refused, and then the tasks started for the rollups before that one run on unheld |
| Reload.LocalEngine.StartRollups | crates/pawrly-engine/src/preagg.rs:112-176 | Each refreshing rollup up to the first refused one starts one task |
| Reload.SharedBucket | crates/pawrly-engine/src/preagg.rs:105-110 | The input: a source of that name is registered with a task and loses it to the first rollup |
| Reload.MatchingReportsNothing | crates/pawrly-engine/src/local.rs:1396-1469 | A configuration in force leaves nothing to add, change or remove |
| Reload.SourcesBalance | crates/pawrly-engine/src/local.rs:1396-1469 | Sources after plus removed are sources before plus added |

## Left out

- Network, gRPC, REST, MCP, the CLI, the console, telemetry, the keyring and environment access are not modelled; neither are the SQL compiler, the rollup matcher and the function rewriter, which are separate crates.
- Parquet, Arrow and DuckDB contents: a file is a sequence of rows, a connection a set of loaded extensions. `DATE_TRUNC` is DataFusion's; `Grains` specifies it on a proleptic Gregorian calendar with Monday weeks and days of equal length.
- IncludeWalk.CollectAll: which files a pattern matches (globbing, tilde expansion) and what is canonical are inputs.
- Assemble.AssembleAll: the semantic model files, which are spliced in last, and the writing of the lists back into the root tree are not part of it.
- Overlay.DeepMerge: the merged tree is returned rather than written over the base; the code owns both trees, so nothing is aliased.
- Overlay.ExpandFrom: reading and parsing the fragment is a function of its path text; error messages are not modelled.
- Variables.Resolver.Walk: the rewritten tree is returned rather than written in place.
- Variables.ResolveRefs: stored literals, environment values, number parsing and the building of a dynamic spec are parameters; their own rules are not modelled.
- MetricCycles.FindMetricCycles: which of the cyclic metrics are reported depends on the map order, and nothing is claimed about it.
- CallSql.CallRoundTrip: the names are identifiers, as their validation demands, so they hold no `(` and the namespace no `.`.
- Template.OrderMattersExactly: stated for keys without `$` and `}` and templates whose text has no `$`; for other templates nothing is claimed.
- Rollups.SafeExactly: values are real numbers, and custom SQL aggregates, which are never safe, are not modelled.
- Activity.EveryRun: a scan may miss a batch in flight, and a failed flush loses its batch, as in the code; the flush timer and the schedule of pruning are covered as steps that may happen at any time.
- ManifestMerge.EveryRun: data files are not part of it. Across processes an entry can lose its file when a vacuum or an invalidation overlaps another process's write, so nothing is claimed about that.
- CacheManager.CacheManager.WithLockedManifest: reading an existing manifest succeeds here, and in all of `CacheManager`; `ManifestMerge` has reads that fail.
- CacheDisk.CrashesAreSafe: reading an existing manifest succeeds here too; operations do not overlap, and each source and table name is one path component. Deletions succeed.
- CacheManager.CacheManager.Scan: the agreement is claimed for tables whose producer returns a fixed whole result, which rollups do; of other tables, stored files have the table's width.
- CacheManager.CacheManager.VacuumAll: the two directory listings are those of the moment, and nothing else writes meanwhile.
- Materialized entries do not survive `invalidate`, which does not look at an entry's origin; `Manifest.ApplyMeans` says so, and no protection is claimed.
- ActivityStore.DurableActivityStore.Flush: reading the manifest succeeds in the methods of this class; `Activity` has reads that fail.
- Pool.EveryRun: the mutex around the anchor connection and panics are not modelled; nothing is claimed about duplicates in the list of required extensions.
- Lifecycle.EveryRun: the wrapped stream is assumed to answer only its end after its end; of metrics and activity records only the status and the row count are modelled, and no elapsed time.
- Reload.LocalEngine.RegisterSource: a schema counts once its registration is complete; what a backend that fails leaves of it, and the tables in a schema, are not modelled, so nothing is claimed about a source named `semantic`, whose schema the rollups use too.
- Reload.LocalEngine.ReloadConfig: functions, and registrations of one name that overlap in time, are not modelled; definitions are compared by an arbitrary serialization, and configurations name each source once, as the loader demands.
- The in-memory activity ring, the layered secret store, the namespace memo and per-field validation would add only easy members.
