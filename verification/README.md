# kmux: a verified model of its layout, graph, discovery, wire and connection logic

This project models the parts of kmux whose correctness rests on an algorithm or a state machine,
and proves what they promise. Check it with `dafny verify dfyconfig.toml` (Dafny 4.11).

| file | what it models |
|---|---|
| `Apportionment`, `Ranking` | largest-remainder sharing of cells among permille weights |
| `Layout`, `Tiling` | the ratio tree resolved into panes and divider strips |
| `Borders`, `Focus` | what lies beyond the sides of a pane; geometric focus movement |
| `Resize`, `Edits`, `Drag` | keyboard resize, pointer drag, the daemon storing the result, whole runs of edits |
| `Store` | what the daemon stores of the ratios a client sends: raised to the floor, renormalized |
| `Daemon` | the daemon's own edits of a layout: split, close, swap, set ratios, schemes; every run of them |
| `Placement` | where exactly the daemon's edits change a layout, and what stands there afterwards |
| `Reached` | layouts that splitting alone leads to, and the promises they break |
| `Graph`, `Cycle` | the workspace dependency graph: reachability, shortest path, member cycles |
| `SshConfig`, `Glob`, `Hosts` | SSH host discovery over include graphs |
| `Endpoint` | endpoint strings, parsed and printed |
| `Codec` | length-prefixed frames with optional compression |
| `Supervisor`, `Forwarder` | transport scoring, probing and hot-swap; the probe's handshake forwarder |
| `Liveness` | the ping tracker |
| `RecentServers` | the bounded list of recent servers |
| `Widths`, `Options`, `Sequences`, `Text` | fixed-width integers, options, sequences, characters |

Widths matter where they can bite: `U16`, `U32` and `I32` are subset types, so a method that stores
into one of them is proved not to overflow; saturating operations and truncating casts are written
out. Code that updates things step by step is a method proved equal to a specification function, and
the properties are lemmas about that function.

Some promises do not hold on every input. For those there is a proof of when they do:

- All-zero ratios break the exact sum of `apportion`, unless there are no more cells than children
  (`ExactSumIff`).
- Panes and strips fail to tile the area exactly when the gutters of some split do not fit or some
  slot is under the minimum size (`TilesIffFits`).
- Focus can be stuck although the pane does not reach the edge of the area: with the client's own
  gutters of one cell, a pane of one row may face nothing but a divider (`StuckPane`). It moves
  nowhere exactly when all of the area straight ahead is divider (`NoCandidateIff`), and a pane whose
  side is longer than the gutter across is stuck only at the edge (`NeighbourOnLayout`).
- A file reached by two paths is read once, and its relative includes are resolved against the first
  path only, so hosts behind the second path's includes are missed (`HostIsMissed`,
  `SecondPathIsSkipped`); if paths naming the same file agree, nothing is missed (`Discover`).
- An SSH endpoint with no user whose host contains `@`, as `ssh://@a@b` gives, does not survive
  printing (`UserlessHost`, `ParsePrintParse`), and a bracketed host with nothing after it makes
  parsing panic, `[::1]` for one (`PanicsIff`).
- The probe forwarder holds back only the first `AuthResult`. A second refused one is forwarded to the
  session manager (`SecondRefusalIsForwarded`); only accepted results get there exactly when no
  refused one follows the first result (`OnlyAcceptedIff`).
- One failed probe can bar an endpoint that was never measured for as long as the active transport
  keeps its score, long after the penalty has lapsed (`LockedOut`, `HeuristicProbesIff`).
- A payload beyond the decompression bound that compresses well is written but cannot be read back
  (`AcceptedButUnreadable`, `ReadBackIff`).
- The daemon's floor of 20 does not keep a pane from being collapsed to nothing: `[65535, 0]` is stored
  as `[1000, 0]` (`Collapsed`). What a weight ends at is exactly `StoredAtLeastIff`; the floor is kept
  if the raised weights sum to no more than 1000, and no weight is lost up to 20000 (`FloorKept`).
- A keyboard resize can go the wrong way. Six splits lead to weights under 20; a pane asked to grow
  then shrinks and another asked to shrink grows (`WrongWay`). It goes as asked exactly if the one of
  the pair that gives weight away is above 20 (`ResizeDirection`), and a grow and a shrink by the same
  step lead back exactly if no weight of that split is under 20 (`GrowThenShrink`).
- Eleven splits of one pane in one direction leave a pane without weight, and the layout then fits no
  area whatever (`HalvingsFitNowhere`), so `EveryLayoutTiles` says nothing of it.
- Recent-server timestamps are whole seconds. The server connected to last leads the list exactly if
  all entries before its place are older and none behind is later (`LeadsIff`): of two servers within a
  second the later one stands second, even if used twice (`SameSecond`). A new one is dropped at once
  if the list is full of servers used no earlier (`NewServerKeptIff`).

## Model

| member | source | states |
|---|---|---|
| `Apportionment.Apportion` | crates/kmux-app/src/layout.rs:148-175 | the two loops compute the specified shares, and no `u32` or `u16` step overflows or truncates when the ratio sum fits `u32` |
| `Apportionment.AllocFollowsRule` | crates/kmux-app/src/layout.rs:145-175 | with a positive ratio sum the shares obey the largest-remainder rule: they sum to the total, each is its quota rounded down or one more, and who is rounded up has the greater remainder or, on a tie, the lower index |
| `Apportionment.RuleIsDeterministic` | crates/kmux-app/src/layout.rs:9-15 | at most one vector obeys that rule, so two clients with the same window never disagree by a cell |
| `Apportionment.ExactSumIff` | crates/kmux-app/src/layout.rs:145-175 | the shares sum exactly to the total if and only if the ratios are not all zero or there are no more cells than children |
| `Apportionment.WithinQuota` | crates/kmux-app/src/layout.rs:159-173 | each share is the floor of its quota, or one more only if the quota is not whole; a zero ratio gets nothing |
| `Apportionment.QuotaError` | crates/kmux-app/src/layout.rs:159-173 | each share is less than one cell from its exact quota |
| `Apportionment.Monotone` | crates/kmux-app/src/layout.rs:159-173 | a larger ratio never gets fewer cells; equal ratios differ by at most one, the lower index favoured |
| `Apportionment.ScaleInvariant` | crates/kmux-app/src/layout.rs:148-175 | scaling all ratios by a common factor changes no share |
| `Apportionment.AtLeastIff` | crates/kmux-app/src/layout.rs:148-175 | a share is at least m exactly if its quota reaches m, or reaches m - 1 and fewer parts than there are leftover cells rank before it |
| `Layout.ComputeExtents` | crates/kmux-app/src/layout.rs:128-143 | the loop places the children as specified, gutters taken off first |
| `Layout.ExtentsChain` | crates/kmux-app/src/layout.rs:120-143 | children and gutters of a split follow one another without gap or overlap and end exactly at the end of its axis |
| `Layout.ResolveInto` | crates/kmux-app/src/layout.rs:77-118 | the recursion appends exactly the specified rectangles |
| `Layout.ResolveLayout` | crates/kmux-app/src/layout.rs:66-75 | the rectangles of the whole area |
| `Layout.DividersInto` | crates/kmux-app/src/layout.rs:228-301 | the recursion appends exactly the specified dividers, a split's own first |
| `Layout.ResolveDividers` | crates/kmux-app/src/layout.rs:215-225 | the dividers of the whole area |
| `Layout.ExactPartition` | crates/kmux-app/src/layout.rs:66-143 | for every tree and area where gutters fit and no slot is under the minimum, every cell of the area lies in exactly one pane or divider strip, and none covers a cell outside |
| `Tiling.TilesIffFits` | crates/kmux-app/src/layout.rs:77-143 | with a positive minimum size, panes and strips tile any area exactly if and only if the gutters fit at every split and no slot is under the minimum |
| `Tiling.Covers` | crates/kmux-app/src/layout.rs:77-143 | fitting or not, every cell of the area lies in some pane or strip |
| `Tiling.BigMeansFits` | crates/kmux-app/src/layout.rs:128-143 | if every slot reaches a positive minimum, the gutters fit everywhere |
| `Tiling.AlwaysFits` | crates/kmux-app/src/layout.rs:77-143 | with no gutters and no minimum size every layout fits every area |
| `Layout.LeafOrder` | crates/kmux-app/src/layout.rs:63-75 | one rectangle per leaf, in leaf order |
| `Layout.DividerCount` | crates/kmux-app/src/layout.rs:209-225 | exactly one divider fewer than panes |
| `Focus.FocusNeighbor` | crates/kmux-app/src/layout.rs:303-348 | for any rectangles: the lexicographic optimum (least distance, then greatest overlap, then earliest) among overlapping panes on that side, and nothing exactly when there is no candidate |
| `Borders.PaneAtEdge` | crates/kmux-app/src/layout.rs:77-143 | along the edge of an area, every stretch longer than the gutter across, or reaching a corner, meets a pane |
| `Borders.PaneBordered` | crates/kmux-app/src/layout.rs:77-143 | a pane that does not reach a side of the area has a gutter all along that side and, if the side is longer than the gutter across, a pane right behind the gutter |
| `Focus.NoCandidateIff` | crates/kmux-app/src/layout.rs:306-366 | on any tiling by panes and strips there is no candidate exactly when all of the area straight ahead of the focused pane is divider strip |
| `Focus.NeighbourOnLayout` | crates/kmux-app/src/layout.rs:66-366 | on a resolved layout, whatever the gutters: no candidate is nearer than the gutter; none at the edge of the area; from a side longer than the gutter across there is one otherwise, and the optimum lies exactly a gutter away |
| `Focus.MoveFocus` | crates/kmux-app/src/core/dispatch/mod.rs:224-243 | resolving the tab with any gutters and moving focus has exactly these outcomes; with no gutters: nowhere exactly at the edge, otherwise to a pane touching the focused one |
| `Focus.StuckPane` | crates/kmux-app/src/layout.rs:42-51 | with the default configuration a pane of one row that does not reach the edge has no candidate |
| `Borders.MinimumKept` | crates/kmux-app/src/layout.rs:37-40 | no pane is ever under the minimum size |
| `Resize.InnermostAncestor` | crates/kmux-app/src/layout.rs:439-474 | with distinct panes the split found lies on the one path to the pane, splits on the axis, and no deeper split on the path does; none found means none exists |
| `Resize.PathUnique` | crates/kmux-app/src/layout.rs:457-474 | with distinct panes only one path leads to a pane |
| `Edits.FindNode` | crates/kmux-app/src/layout.rs:477-486 | the loop descends the path as specified |
| `Edits.BuildDescent` | crates/kmux-app/src/layout.rs:460-474 | the recursion leaves exactly the descent to the first matching leaf, or what was there before |
| `Edits.LocateSplit` | crates/kmux-app/src/layout.rs:442-455 | finds the split specified |
| `Edits.ShiftPair` | crates/kmux-app/src/layout.rs:429-437 | the in-place update is the specified one and stays inside `i32` |
| `Edits.ShiftedKeeps` | crates/kmux-app/src/layout.rs:425-437 | on weights summing to 1000 the shift keeps the sum, moves the clamped amount within the pair, touches nothing else and takes no weight below the floor; a pair too light for the floor is left alone |
| `Edits.ComputeResize` | crates/kmux-app/src/layout.rs:390-423 | computes the specified proposal |
| `Edits.ResizeDirection` | crates/kmux-app/src/layout.rs:375-437 | on any tree of splits summing to 1000: a keyboard resize addresses the innermost ancestor on the axis and trades with the next child, or for the last the one before; with a step it is a change exactly when the pair weighs at least 40 and the one that gives (the neighbour on Right/Down, the child on Left/Up) is not at 20; Right and Down then make the child larger and Left and Up smaller exactly if that one is above 20, and below it the other way round |
| `ReachedLayouts.WrongWay` | crates/kmux-app/src/layout.rs:375-437 | after six splits in the daemon, Right makes pane 3 smaller and Left makes pane 6 larger, whatever the step |
| `Edits.ComputeDrag` | crates/kmux-app/src/layout.rs:500-534 | computes the specified proposal, with no step leaving `i32` if the pair's weight times its length fits |
| `Edits.LightPairFits` | crates/kmux-app/src/layout.rs:522-526 | which holds for every pair weighing at most 32767, so for all weights summing to 1000 |
| `Edits.DragTarget` | crates/kmux-app/src/layout.rs:522-526 | the pointer arithmetic, with no step leaving `i32` |
| `Edits.DraggedKeeps` | crates/kmux-app/src/layout.rs:488-534 | on weights summing to 1000 a drag keeps the sum, moves weight within its pair only and takes none below the floor |
| `Edits.ProposalIsSound` | crates/kmux-app/src/layout.rs:390-534 | on any tree of splits summing to 1000, every proposal addresses an existing split with the right arity, sums to 1000, changes one adjacent pair only and takes no weight below the floor |
| `StoredRatios.StoredVerbatim` | crates/kmuxd/src/app/layout.rs:189-215 | the daemon's clamp and renormalization leave weights summing to 1000 with none under 20 exactly as they are |
| `StoredRatios.StoredVerbatimIff` | crates/kmuxd/src/app/layout.rs:189-215 | where some weight is above 20, only those |
| `StoredRatios.StoredAtLeastIff` | crates/kmuxd/src/app/layout.rs:14-62 | a stored weight is at least m exactly if its share of the raised weights reaches m, or reaches m - 1 and is rounded up |
| `StoredRatios.FloorKept` | crates/kmuxd/src/app/layout.rs:14-62 | no weight ends under 20 if the raised weights sum to at most 1000, and none at zero if to at most 20000 |
| `StoredRatios.Collapsed` | crates/kmuxd/src/app/layout.rs:14-62 | `[65535, 0]` is stored as `[1000, 0]` and `[30000, 20, 20]` as `[999, 1, 0]` |
| `StoredRatios.HeavyKept` | crates/kmuxd/src/app/layout.rs:19-62 | if a weight above 20 is stored as it came, every weight ends at 20 or more |
| `StoredRatios.NormalizeSums` | crates/kmuxd/src/app/layout.rs:19-62 | the daemon's renormalization of any weights sums to 1000 |
| `Edits.ApplyKeeps` | crates/kmuxd/src/app/layout.rs:192-215 | one edit stores the proposal at its path, raised and renormalized, and keeps the shape of the tree and every sum; where the split has no weight under 20 the proposal is stored exactly |
| `Edits.SetAtLocal` | crates/kmuxd/src/app/layout.rs:192-215 | at every other path the tree keeps its direction, arity and ratios |
| `Edits.RunKeeps` | crates/kmux-app/src/layout.rs:390-534 | any run of resizes and drags, stale dividers included, keeps shape, leaves and sums; and if no weight is under 20 at first, none ever is |
| `Edits.ThereAndBackIff` | crates/kmux-app/src/layout.rs:425-437 | for one split, as the daemon stores it, a shift clear of the donor's floor and the shift back restore the ratios exactly if none is under 20 |
| `Edits.GrowThenShrink` | crates/kmux-app/src/layout.rs:390-437 | the same for the tree: an unclamped grow and a shrink by the same step restore it exactly if no weight of that split is under 20 |
| `DragTracking.DividerOrigin` | crates/kmux-app/src/layout.rs:228-301 | every resolved divider names its own split, boundary and pair; its strip starts where its first child ends, is one gutter thick and runs all across the split |
| `DragTracking.HitBetween` | crates/kmux-app/src/layout.rs:228-301 | where the layout fits, a divider's strip lies exactly between its two children |
| `DragTracking.Shift` | crates/kmux-app/src/layout.rs:148-175 | changing two neighbouring weights moves all other children the same way, and those before the pair no further than the pair's length changes |
| `DragTracking.DragTracks` | crates/kmux-app/src/layout.rs:488-534 | resolving the dragged tree again, child `before` ends within 3 + avail/(2·sum) cells of the pointer, or of the nearer end of the pair if the pointer is outside it |
| `Edits.DragProposes` | crates/kmux-app/src/layout.rs:500-534 | a drag is a proposal exactly if the split is still there in its direction with a next child, the pair weighs at least 40 and the rounded share at the pointer, kept off the floor, is a new one; and it is that share |
| `DaemonLayout.SplitKeeps` | crates/kmuxd/src/app/layout.rs:65-151 | a split puts the new pane right after the one it came from, keeps every split at two or more children with ratios summing to 1000, and is refused exactly when that pane is absent |
| `PanePlacement.SplitPlace` | crates/kmuxd/src/app/layout.rs:65-151 | where the pane is a child of a split in the direction asked for, the two share its weight there as neighbours, the new one getting the smaller half; otherwise a split in that direction with half for each takes its place; nothing else in the tree changes |
| `DaemonLayout.RemoveKeeps` | crates/kmuxd/src/app/layout.rs:153-187 | closing removes exactly that leaf and keeps the same invariant, collapsing a split left with one child; refused exactly for a lone or absent pane |
| `PanePlacement.RemovePlace` | crates/kmuxd/src/app/layout.rs:153-187 | of two children the other takes the split's place; of more, the rest stay in order with the remaining weights shared out to 1000 by largest remainder; nothing else in the tree changes |
| `DaemonLayout.RenameKeeps` | crates/kmuxd/src/app/layout.rs:217-247 | swapping renames the two leaves; at every path the split keeps its direction, ratios and arity |
| `PanePlacement.SwapIs` | crates/kmuxd/src/app/layout.rs:217-247 | two different panes of the tree change places, and it is refused exactly otherwise |
| `DaemonLayout.SetRatiosKeeps` | crates/kmuxd/src/app/layout.rs:189-215 | whatever ratios a client sends, the tree keeps its panes and every sum; and exactly when each weight ends at or above any bound, 20 or 1 among them |
| `DaemonLayout.SchemeSound` | crates/kmuxd/src/app/layout.rs:275-330 | a scheme keeps exactly the panes it is given, in order, in a sound tree; one not known is refused |
| `PanePlacement.SchemeIs` | crates/kmuxd/src/app/layout.rs:275-330 | the even schemes give one row or column of even weights; the main ones half to the first pane, to the left or on top, and an even stack of the others |
| `DaemonLayout.DoKeeps` | crates/kmuxd/src/app/layout.rs:1-10 | every mutation keeps the tree sound and its panes distinct, and changes the panes as it should |
| `DaemonLayout.EveryLayoutTiles` | crates/kmux-app/src/layout.rs:1-15 | from a single pane on, after any run of splits, closes, swaps, ratio updates and schemes, the layout tiles exactly every area it fits, one rectangle per pane, and meets what the client's edits ask of a tree |
| `ReachedLayouts.FittingHasWeight` | crates/kmux-app/src/layout.rs:128-175 | a layout that fits gives weight to every child of every split |
| `ReachedLayouts.HalvingsFitNowhere` | crates/kmuxd/src/app/layout.rs:65-151 | eleven or more splits of the same pane in one direction leave a weight of zero, and the layout fits no area |
| `DependencyGraph.ReachableFrom` | xtask/src/graph.rs:149-162 | exactly the packages a dependency path leads to, without the root; ends on every graph |
| `DependencyGraph.TracePath` | xtask/src/graph.rs:181-187 | the predecessor walk ends and yields a real path of the recorded length |
| `DependencyGraph.NoShorterPath` | xtask/src/graph.rs:164-198 | no path to a target is shorter than the distance of the nearest unprocessed package |
| `DependencyGraph.ShortestPathToAny` | xtask/src/graph.rs:164-198 | a real path from the root to a target that no path to any target beats; a result exactly when the root is a target or a target is reachable |
| `MemberCycles.CycleSearch.Visit` | xtask/src/graph.rs:216-251 | in progress always means on the stack, so the lookup cannot fail; returns a real cycle, or finishes the package with everything it depends on; ends on every graph |
| `MemberCycles.TopologicalIsAcyclic` | xtask/src/graph.rs:200-214 | an order with every member dependency first rules out every closed chain |
| `MemberCycles.MemberCycle` | xtask/src/graph.rs:200-214 | a closed chain of members without other repeats, and none exactly when there is no closed chain at all, self-loops included |
| `SshConfigLine.Tokenize` | crates/kmux-connect/src/hosts.rs:247-289 | the loop splits the line as specified |
| `SshConfigLine.TokenizeUndoesQuoting` | crates/kmux-connect/src/hosts.rs:247-289 | quoting any non-empty words and tokenizing the line gives them back |
| `SshConfigLine.TokenizePlain` | crates/kmux-connect/src/hosts.rs:247-289 | words without special characters stand as they are, and what follows a `#` is ignored |
| `SshConfigLine.SingleQuoted` | crates/kmux-connect/src/hosts.rs:247-289 | single quotes hold spaces, `#` and double quotes |
| `SshConfigLine.KeywordForms` | crates/kmux-connect/src/hosts.rs:291-303 | `Host=web` means `Host web` |
| `SshConfigLine.AliasForms` | crates/kmux-connect/src/hosts.rs:305-311 | a name is an explicit alias; an empty word, a negation and the wildcards are not |
| `SshConfigLine.ExplicitOrder` | crates/kmux-connect/src/hosts.rs:224-236 | a `Host` line gives its explicit values in order |
| `SshConfigLine.KeywordCase` | crates/kmux-connect/src/hosts.rs:224-237 | keywords count in any case |
| `Glob.GlobMeaning` | crates/kmux-connect/src/hosts.rs:359-371 | matches exactly the values that can be cut into one piece per pattern byte, each of the kind that byte stands for |
| `Glob.ConcatSplits` | crates/kmux-connect/src/hosts.rs:359-371 | a concatenated pattern matches exactly the values that split into two parts, one for each half |
| `Glob.SingleByte` | crates/kmux-connect/src/hosts.rs:359-371 | `*` alone matches everything, `?` any one byte, any other byte itself |
| `HostDiscovery.Discovery.Parse` | crates/kmux-connect/src/hosts.rs:185-245 | ends on every include graph and does exactly the specified traversal: depth first, line by line, includes followed at their line, each canonical file once |
| `HostDiscovery.RegularFilesOrder` | crates/kmux-connect/src/hosts.rs:190-203 | the regular files of a directory come in the order of its entries |
| `HostDiscovery.WholeDone` | crates/kmux-connect/src/hosts.rs:185-245 | no file is read twice; every file read is one the roots lead to, with all its aliases met and all its includes visited; every entry is an alias of a file read |
| `HostDiscovery.LinesInOrder` | crates/kmux-connect/src/hosts.rs:215-244 | what the lines before any line of a file lead to is met before anything of that line or later |
| `HostDiscovery.AliasesFound` | crates/kmux-connect/src/hosts.rs:185-245 | every explicit alias of every reachable file is met, provided reachable paths naming the same file agree |
| `HostDiscovery.Dedupe` | crates/kmux-connect/src/hosts.rs:157-167 | exactly the first entry met of each alias, strictly sorted by alias |
| `Text.LessMeans` | crates/kmux-connect/src/hosts.rs:157-167 | aliases sort by the first character that differs, a prefix first |
| `HostDiscovery.Discover` | crates/kmux-connect/src/hosts.rs:131-155 | exactly the first entry of each alias, sorted, of the `hosts.toml` entries followed by what the traversal of the paths meets, in its order; every `hosts.toml` entry is listed, everything else was found in a file read; every alias of every reachable file is present when paths naming the same file agree |
| `HostDiscovery.EarlierPathWins` | crates/kmux-connect/src/hosts.rs:150-155 | if some of the first paths lead to a file with a listed alias, the entry comes from `hosts.toml` or from a file those paths lead to |
| `HostDiscovery.SecondPathIsSkipped` | crates/kmux-connect/src/hosts.rs:208-210 | a second path to a file adds nothing, so an alias that only its includes lead to is absent |
| `HostDiscovery.HostIsMissed` | crates/kmux-connect/src/hosts.rs:208-210 | two links to one file with one relative include: the host behind the second link's include is missed |
| `Endpoints.PortRoundTrip` | crates/kmux-protocol/src/endpoint.rs:191-201 | a printed port parses back |
| `Endpoints.ParseImage` | crates/kmux-protocol/src/endpoint.rs:50-120 | everything parsing returns is well-formed |
| `Endpoints.RoundTripIff` | crates/kmux-protocol/src/endpoint.rs:123-152 | a well-formed endpoint printed and parsed again is the same, exactly unless it is an SSH one with no user and an `@` in the host |
| `Endpoints.ParsePrintParse` | crates/kmux-protocol/src/endpoint.rs:50-152 | the same for whatever any input parses to |
| `Endpoints.WhitespaceIgnored` | crates/kmux-protocol/src/endpoint.rs:50-51 | whitespace around an endpoint changes nothing |
| `Endpoints.BareHostPort` | crates/kmux-protocol/src/endpoint.rs:108-111 | a bare `host:port` means QUIC |
| `Endpoints.BareUserHost` | crates/kmux-protocol/src/endpoint.rs:94-106 | `user@host`, with or without a port, means SSH as that user |
| `Endpoints.BareWord` | crates/kmux-protocol/src/endpoint.rs:113-117 | any other word is an alias |
| `Endpoints.NoPortRefused` | crates/kmux-protocol/src/endpoint.rs:61-77 | QUIC and TLS without a port are refused |
| `Endpoints.EmptyRefused` | crates/kmux-protocol/src/endpoint.rs:53-119 | an empty endpoint, alias or socket path is refused, each as such |
| `Endpoints.PanicsIff` | crates/kmux-protocol/src/endpoint.rs:183-193 | parsing panics exactly when a bracketed host is not followed by an ASCII character |
| `Endpoints.BareLiteralPanics` | crates/kmux-protocol/src/endpoint.rs:108-111 | parsing `[::1]` panics |
| `Endpoints.UserlessHost` | crates/kmux-protocol/src/endpoint.rs:155-181 | `ssh://@a@b` parses to host `a@b` without a user, which prints and parses again as user `a`, host `b` |
| `FrameCodec.PrefixRoundTrip` | crates/kmux-protocol/src/codec.rs:199-219 | the big-endian length prefix is a bijection between 32-bit lengths and four bytes |
| `FrameCodec.Writer.WriteTagged` | crates/kmux-protocol/src/codec.rs:183-205 | appends a whole frame and reports its size, or refuses and appends nothing |
| `FrameCodec.Writer.WriteFrame` | crates/kmux-protocol/src/codec.rs:142-159 | appends the frame of the smaller form |
| `FrameCodec.Reader.Next` | crates/kmux-protocol/src/codec.rs:209-241 | reads the next frame as specified, an end inside the header counting as a clean end |
| `FrameCodec.WrittenForm` | crates/kmux-protocol/src/codec.rs:142-205 | below the threshold the payload goes out as it is, tagged 2; from it on compressed, tagged 3, if that is smaller; the length in front is big-endian and counts the tag; a compressor that fails is an error |
| `FrameCodec.HeaderRead` | crates/kmux-protocol/src/codec.rs:209-241 | a length over 64 MiB, of zero or beyond the stream, and a tag of the old codec or not known, are refused, each as such |
| `FrameCodec.WrittenSize` | crates/kmux-protocol/src/codec.rs:136-159 | no frame exceeds its payload by more than five bytes, and a payload that fits fails only if the compressor does |
| `FrameCodec.ReadBackIff` | crates/kmux-protocol/src/codec.rs:142-265 | whatever a write accepts reads back unchanged if it is within the decompression bound, and is refused beyond it |
| `FrameCodec.AcceptedButUnreadable` | crates/kmux-protocol/src/codec.rs:142-265 | there is a lossless compressor and a payload that a write accepts and a read refuses |
| `FrameCodec.Truncated` | crates/kmux-protocol/src/codec.rs:209-241 | a stream cut anywhere yields the payloads of its whole frames, then a clean end at a boundary or inside a header, or an I/O error inside a payload |
| `FrameCodec.StreamRoundTrip` | crates/kmux-protocol/src/codec.rs:142-241 | any sequence of payloads, each under any compressor, reads back exactly |
| `FrameCodec.SendAll` | crates/kmux-protocol/src/codec.rs:135-159 | a batch of writes leaves exactly the stream of its frames |
| `FrameCodec.ReceiveAll` | crates/kmux-protocol/src/codec.rs:206-241 | reading frame by frame gives what the specification says |
| `TransportSupervision.FirstSample` | crates/kmux-connect/src/supervisor.rs:98-105 | the first measurement is taken as it is, and each later one moves the average a fifth of the way |
| `TransportSupervision.AverageConverges` | crates/kmux-connect/src/supervisor.rs:98-105 | each measurement closes a fifth of the average's distance to it: after n equal ones 0.8^n of the distance is left |
| `TransportSupervision.KindsRank` | crates/kmux-connect/src/supervisor.rs:141-157 | the kinds rank socket, QUIC, TLS, TCP, by 10, 10 and 5 points, and the socket 1000 higher on a local target |
| `TransportSupervision.ScoreParts` | crates/kmux-connect/src/supervisor.rs:159-182 | an unknown latency counts as 500 ms, each whole millisecond costs a point and each recent failure 100; the priority adds to it |
| `TransportSupervision.LocalSocketWins` | crates/kmux-connect/src/supervisor.rs:141-182 | on a local target the socket outranks any transport of no higher priority while its latency and penalties stay under 1010 |
| `TransportSupervision.PenaltiesLapse` | crates/kmux-connect/src/supervisor.rs:163-179 | once their windows have passed, penalties no longer count in the score |
| `TransportSupervision.Supervisor.EnsureActive` | crates/kmux-connect/src/supervisor.rs:333-390 | probes only the forced kind, swaps if accepted, charges a failure if not |
| `TransportSupervision.Supervisor.Turn` | crates/kmux-connect/src/supervisor.rs:408-562 | one turn of the loop is the specified round, and sends a signal exactly on an accepted probe |
| `TransportSupervision.RoundEffect` | crates/kmux-connect/src/supervisor.rs:333-565 | a round probes only an advertised endpoint of a kind not active, and of the forced kind if one is forced; acceptance makes it active; a failure raises that endpoint's failure count by one and leaves every other record alone |
| `TransportSupervision.RoundMarks` | crates/kmux-connect/src/supervisor.rs:333-565 | an accepted probe marks the first record of the kind it leaves, and no other, as left at that time; a refused one charges the endpoint probed; beyond the samples nothing else is written |
| `TransportSupervision.LeftScoresLess` | crates/kmux-connect/src/supervisor.rs:176-182 | the transport just left scores 200 less for the next minute |
| `TransportSupervision.SampleGoes` | crates/kmux-connect/src/supervisor.rs:323-327 | a measurement goes to the first endpoint of its kind and to no other |
| `TransportSupervision.ForcedProbesIff` | crates/kmux-connect/src/supervisor.rs:333-345 | with a kind forced, a probe is made exactly when that kind is advertised and not active, and of its first endpoint |
| `TransportSupervision.HeuristicProbesIff` | crates/kmux-connect/src/supervisor.rs:444-485 | with nothing forced a probe is made exactly when another kind is advertised and the best-scoring other endpoint, the first on a tie, is unmeasured or beats the active one or there is no active record; and it is of that endpoint |
| `TransportSupervision.LockedOut` | crates/kmux-connect/src/supervisor.rs:455-485 | where every other endpoint has failed unmeasured and scores no higher, no run of ticks ever probes or swaps, however long, while the active latency stays within bounds |
| `TransportSupervision.OneFailureLocksOut` | crates/kmux-connect/src/supervisor.rs:455-485 | one failure of TLS beside QUIC at 20 ms is enough; without it TLS is probed at the first tick |
| `TransportSupervision.SignalsAreChanges` | crates/kmux-connect/src/supervisor.rs:393-565 | over every run the signals are exactly the successive new values of the active transport |
| `TransportSupervision.RunProbes` | crates/kmux-connect/src/supervisor.rs:393-565 | over every run each probe is of an advertised endpoint other than the active kind, and while a kind is forced no other is probed |
| `TransportSupervision.QuietAfterSwap` | crates/kmux-connect/src/supervisor.rs:502-534 | after a heuristic swap no round starts for twice the probe interval |
| `ProbeForwarder.AcceptedIff` | crates/kmux-connect/src/supervisor.rs:587-618 | a probe is accepted exactly when authentication succeeded, the connection id is the same and no other run is named |
| `ProbeForwarder.Forward` | crates/kmux-connect/src/supervisor.rs:631-660 | forwards the input in order minus every challenge and minus the first result if it refuses; reports one verdict, that of the first result; answers every challenge |
| `ProbeForwarder.ForwardedInOrder` | crates/kmux-connect/src/supervisor.rs:631-660 | the forwarded messages are a subsequence of the input by increasing positions, exactly those not withheld |
| `ProbeForwarder.RefusalReasons` | crates/kmux-connect/src/supervisor.rs:596-618 | a refusal carries the reason given, else the kind of failure, else a fixed word; without a failure, that the connection was not resumed |
| `ProbeForwarder.NothingLost` | crates/kmux-connect/src/supervisor.rs:620-660 | any other message is forwarded exactly as often as it came in |
| `ProbeForwarder.RefusalForwardedIff` | crates/kmux-connect/src/supervisor.rs:624-660 | a refused result is forwarded exactly when it stands somewhere other than first among the results |
| `ProbeForwarder.RefusalsForwarded` | crates/kmux-connect/src/supervisor.rs:631-660 | it is forwarded exactly as often as it came in, less one if it is the first result |
| `ProbeForwarder.OnlyAcceptedIff` | crates/kmux-connect/src/supervisor.rs:624-660 | the session manager sees only accepted results exactly when no refused one follows the first result |
| `ProbeForwarder.SecondRefusalIsForwarded` | crates/kmux-connect/src/supervisor.rs:645-657 | of two refused results and an accepted one, the second refused one is forwarded ahead of the accepted one |
| `PingLiveness.Liveness.OnPong` | crates/kmux-client/src/liveness.rs:74-79 | drops every ping up to the number answered and gives the round trip of that one |
| `PingLiveness.Liveness.ClientPingDue` | crates/kmux-client/src/liveness.rs:84-93 | sends the next number when the interval has passed |
| `PingLiveness.FieldsMean` | crates/kmux-client/src/liveness.rs:44-93 | after any run the fields say exactly this about its history: when something was last heard, when the next ping is due, how many were sent, and which still wait |
| `PingLiveness.SeqNumbersNeverReused` | crates/kmux-client/src/liveness.rs:84-93 | pings are numbered 0, 1, 2, ... over the whole run, resets or not |
| `PingLiveness.Cadence` | crates/kmux-client/src/liveness.rs:81-93 | pings are at least the interval apart |
| `PingLiveness.StalePong` | crates/kmux-client/src/liveness.rs:57-79 | a pong for a ping sent before a reset gives no round trip and drops no ping |
| `PingLiveness.RoundTripIsExact` | crates/kmux-client/src/liveness.rs:69-79 | a round trip is given exactly for a ping still waited for, and is the time since it was sent |
| `PingLiveness.TimeoutAndWakeup` | crates/kmux-client/src/liveness.rs:95-112 | timed out exactly when nothing was heard for longer than the limit; nothing is due before the wake-up time |
| `RecentServers.Cache.RecordConnection` | crates/kmux-app/src/recent_servers.rs:152-177 | the list becomes the specified one |
| `RecentServers.Cache.UpdateSessions` | crates/kmux-app/src/recent_servers.rs:181-197 | only the session list of that server changes |
| `RecentServers.RecordMovesToFront` | crates/kmux-app/src/recent_servers.rs:152-177 | a later connection moves its server to the front with the new display, kind and time, keeping its sessions and the order of the others |
| `RecentServers.RunIsRecency` | crates/kmux-app/src/recent_servers.rs:150-177 | after any run at increasing times the list is the ten most recently connected distinct servers, most recent first |
| `RecentServers.NewServerKeptIff` | crates/kmux-app/src/recent_servers.rs:152-177 | a new server is kept exactly if the list is not full or its last entry is older, and leads it exactly if all others are older |
| `RecentServers.LeadsIff` | crates/kmux-app/src/recent_servers.rs:152-177 | a server just connected to, new or not, leads the list exactly if every entry before its place is older than now and none behind it is later |
| `RecentServers.RefreshKept` | crates/kmux-app/src/recent_servers.rs:152-177 | a server already in the list is never dropped by connecting to it |
| `RecentServers.SameSecond` | crates/kmux-app/src/recent_servers.rs:152-177 | A, B and B again within one second leave A in front of B |
| `RecentServers.RunInOrder` | crates/kmux-app/src/recent_servers.rs:150-177 | after any history, whatever its timestamps, at most ten servers, each once, none before a later one |

## Left out

- `even_ratios`, `even_ratios_at`, `next_focus_after_removal`: a division and two lookups.
- `DaemonLayout`: the tree is a value, so updating it in place is a function to a new tree; a new pane always gets an index not in use.
- `Tiling.TilesIffFits`: a minimum size of zero is outside it; an area without cells is then tiled by anything.
- `StoredRatios.StoredVerbatimIff`: needs a weight above 20, which every split of fewer than 50 panes has; with 51 panes or more, equal shares of 20 and 19 are stored as they are.
- `Layout` takes at most 65535 children per split, beyond which the source's `n as u16` truncates.
- `DragTracking.DragTracks`: covers pairs whose combined weight is a `u16`; a wider pair, which no permille tree has, would be truncated by the cast back.
- Parsing `cargo metadata` into the dependency graph, and the order of its sets: the graph is given as lists in any order.
- `HostDiscovery.Discovery.Parse`: directory listing, canonical paths and the expansion of include values (home directory, relative paths, directory scan) come in as tables; `Glob` models the matcher the scan uses.
- `HostDiscovery.AliasesFound`: goes one way only; inclusion by several disagreeing paths may still find everything, depending on the order of the files.
- `Endpoints`: text is a sequence of characters; an error is its kind, without the message text.
- `FrameCodec`: asynchronous I/O, flushing and message serialization; compression is any pair of functions where decompressing undoes compressing.
- `TransportSupervision`: sockets, probing itself, logging and the channel closing; probe outcomes, durations, commands and samples are inputs, the upgrade channel stays open, and the forced switch before the first round is a round woken by that override. Round-trip times are reals and scores unbounded integers.
- `ProbeForwarder`: how a challenge is signed; the outer channel stays open.
- `PingLiveness`, `RecentServers`: real clocks (time is an argument), disk storage, and the `u64` range of sequence numbers.
- The FFI, GTK and Swift front ends, the terminal engine, PTYs, TLS, QUIC and SSH transports, configuration and themes: input/output and glue.
