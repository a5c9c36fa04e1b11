# Verified models of five openGauss extensions

Dafny models of the algorithmic cores of five pieces of openGauss `contrib/`, each with a
fast or encoded form that has to agree with a simple meaning:

- **Bounded edit distance** (`fuzzystrmatch`): the two-row program that computes a moving band
  of the edit-distance matrix over multi-byte text. It is proved to return the price of the
  cheapest edit script whenever there is one, that is, unless detours earn something, and in its
  bounded form exactly the smaller of the distance and the bound plus one, for exactly the prices
  that allow it. `EditDistance`, `EditScripts`, `Banded`, `BandedPrices`,
  `MultiByte`, `Levenshtein`.
- **GiST keys for ordered types** (`btree_gist`): ranges over any total order, and byte-string
  ranges whose bounds are cut to a few bytes. Searching an index that comes about by any
  insertions and page splits is proved to be a filter over its rows; for byte strings this asks
  for a condition on the splits, which is exact. `Gist`, `GistRuns`, `Knn`, `NumGist`,
  `NumSplit`, `NumIndex`, `ByteOrder`, `VarGist`, `VarSplit`, `VarReach`, `VarSplitSearch`,
  `VarIndex`, `GistMaps`, `VarHistory`, `KeyLayout`.
- **Boxes of mixed dimension** (`cube`): box algebra, distance, search and the quadratic page
  split. `Cube`, `CubeOrder`, `CubeDistance`, `CubeSearch`, `CubeSize`, `QuadraticSplit`,
  `CubeSplit`, `CubeIndex`.
- **Partial-match scans** (`btree_gin`): a start key and a three-way comparison in place of a
  filter. `GinScan`.
- **Remote expressions** (`gauss_connector`): the collation walker that decides what may be sent
  to another server, proved against a definition that does not walk, and the deparser that
  writes it as SQL with numbered parameters. A reader written for the purpose gets the tree
  back. `RemoteExpr`, `ForeignWalker`, `ForeignCollation`, `ForeignExpr`, `Deparse`,
  `ParamNumbering`, `SqlReader`, `RoundTrip`, `RoundTripIff`, `AcceptedPrints`,
  `StringLiteral`.

`Wrappers`, `BTreeStrategy`, `Sequences`, `Sorting` and `PageEntries` hold what several of these share.

Code that updates rows, buffers and contexts in place is modelled by methods over arrays and by
classes, each proved against a function that states what it computes; the theorems are lemmas
about those functions. `dafny verify dfyconfig.toml` checks the project.

## Where the code falls short

Seven properties turn out not to hold everywhere. Each has failing inputs and the exact
condition under which the code is right.

- `gbt_var_picksplit` cuts both halves to the longer of their two common prefixes. A half with
  keys that were cut before can end up with a key that turns searches for its rows away;
  `VarIndex.SplitSpoilsTree` gives a tree and a row. The exact condition for searches is
  `VarReach.SplitFindsIff` for the keys of a split and `VarSplitSearch.SplitIsHarmlessIff` for
  the trees it happens in: in both halves every entry is safe, or the least lower bound is a
  prefix of the greatest upper bound. `VarSplit.SplitCoversIff` is the exact condition for the
  covering invariant, which is stronger: it asks for safe entries in both halves
  (`VarReach.UnsafeYetFound` lies between). `VarHistory.SearchStaysExact` carries the weaker
  condition through whole histories.
- A `cube` ContainedBy search misses a row if the query has dimensions the row lacks and does
  not hold zero there, because `cube_contains_v0` ignores those dimensions and
  `cube_overlap_v0` does not (`CubeSearch.ContainedByCanMiss`, `CubeSearch.ContainedByIff`).
- `btree_gin` starts less-than searches at a leftmost value that is not the least of its type:
  -(2^63 - 1) for int8 and money, the least signed value for "char", which is compared
  unsigned. Keys below it are missed (`GinScan.Int8MissesLeast`, `GinScan.CharMissesLowerHalf`,
  and `GinScan.ExactIff` for every type).
- `cube_inter` returns a box for cubes that do not overlap, too, and that box holds points they do
  not share; `Cube.InterIsIntersection` says that overlapping is the exact condition.
- `cube_cmp_v0` is an order among boxes of some numbers of dimensions and not of others;
  `CubeOrder.CmpTransitiveIff` says which.
- `gcDeparseArrayRef` puts no parentheses around a subscripted column. A column of another table is
  printed as a parameter with its type, and the subscript behind it is read as part of the type
  name (`RoundTripIff.SubscriptLost`); a subscripted column reads back if and only if it is
  printed as a column (`RoundTripIff.SubscriptReadsIff`).
- The bounded edit distance is right only for honest prices: insertions and deletions both cost
  nothing or less; or neither a substitution nor an insertion together with a deletion earns
  anything, and, unless substitutions are free or can be replaced for free, neither insertions
  nor deletions have a negative price. With other prices it gives up too early
  (`BandedPrices.ExitMisleads`) or is misled by its own sentinels
  (`BandedPrices.SentinelsMislead`); `BandedPrices.AlwaysRightIff` is the exact condition. The
  unbounded form is right for prices of any sign.

## Model

| member | source | states |
|---|---|---|
| `EditDistance.DiagonalGrows` | contrib/fuzzystrmatch/levenshtein.cpp:205-307 | values never fall along a diagonal of the matrix, whenever detours earn nothing: neither a substitution nor an insertion together with a deletion has a negative price |
| `EditDistance.ResidualSteps` | contrib/fuzzystrmatch/levenshtein.cpp:327-334 | the minimum residual distance falls by at most the price of the step taken, and not at all along a diagonal |
| `EditDistance.HopeGrows` | contrib/fuzzystrmatch/levenshtein.cpp:314-330 | value plus residual never falls from a cell to its successors, so a dead column kills what it feeds |
| `EditDistance.DeadRow` | contrib/fuzzystrmatch/levenshtein.cpp:358-361 | a row with no cell within the bound puts the whole distance above the bound |
| `EditDistance.ClampKeepsCells` | contrib/fuzzystrmatch/levenshtein.cpp:145-146 | capping the substitution price at insertion plus deletion changes no cell, whatever the signs of the prices |
| `EditDistance.Symmetric` | contrib/fuzzystrmatch/levenshtein.cpp:205-307 | exchanging the strings and the two prices keeps the distance; with equal prices it is symmetric |
| `EditDistance.Triangle` | contrib/fuzzystrmatch/levenshtein.cpp:205-307 | going by way of a third string is never cheaper, whenever detours earn nothing |
| `EditDistance.ZeroOnlyForEqual` | contrib/fuzzystrmatch/levenshtein.cpp:205-307 | with positive prices the distance is zero exactly for equal strings |
| `EditScripts.NoCheaperScript` | contrib/fuzzystrmatch/levenshtein.cpp:37-47 | no sequence of single-character edits, at any positions and through any intermediate strings, costs less than the distance, whenever detours earn nothing |
| `EditScripts.CheapestPrefixScript` | contrib/fuzzystrmatch/levenshtein.cpp:37-47 | every cell is the price of a script that turns the one prefix into the other |
| `EditScripts.DistanceIsCheapestScript` | contrib/fuzzystrmatch/levenshtein.cpp:37-47 | the distance is the minimum over all edit scripts, attained and never undercut, whenever detours earn nothing |
| `EditScripts.CheapestScriptIff` | contrib/fuzzystrmatch/levenshtein.cpp:37-47 | between any two strings there is a cheapest edit script at all if and only if detours earn nothing |
| `MultiByte.CharAt` | src/common/backend/utils/mb/mbutils.cpp:967-983 | stepping by character length stays on character boundaries and ends with the text |
| `MultiByte.CountChars` | src/common/backend/utils/mb/mbutils.cpp:967-983 | counts the characters of a text in any encoding into non-empty blocks |
| `MultiByte.CacheLengths` | contrib/fuzzystrmatch/levenshtein.cpp:181-191 | the cached lengths are those of the characters, with a zero behind them |
| `MultiByte.RestOfCharSame` | contrib/fuzzystrmatch/fuzzystrmatch.cpp:163-171 | true exactly for equal stretches of bytes |
| `MultiByte.SameChar` | contrib/fuzzystrmatch/levenshtein.cpp:268-272 | last byte, length, rest: true exactly for the same character |
| `Banded.StandsStep` | contrib/fuzzystrmatch/levenshtein.cpp:266-276 | the recurrence over stand-in values: a cell computed from neighbours that are exact, or known to be out of reach, is again exact or out of reach |
| `Banded.FilledStands` | contrib/fuzzystrmatch/levenshtein.cpp:227-299 | a whole row, from the left edge of the band on, keeps that |
| `Banded.NextRowDead` | contrib/fuzzystrmatch/levenshtein.cpp:213-225 | columns left of the band, and those beyond one more column, stay out of reach in the next row |
| `Banded.WidenedStands` | contrib/fuzzystrmatch/levenshtein.cpp:222-225 | the sentinel that widens the band stands for a cell out of reach |
| `Banded.TrimmedStands` | contrib/fuzzystrmatch/levenshtein.cpp:318-361 | after each row: everything outside the band is out of reach, everything inside is exact or out of reach; an empty band means the bound is exceeded |
| `Banded.NextStateStands` | contrib/fuzzystrmatch/levenshtein.cpp:209-363 | a whole iteration keeps that invariant, or reports rightly that the bound is exceeded |
| `Banded.NextStateIsWide` | contrib/fuzzystrmatch/levenshtein.cpp:318-361 | for prices of any sign the band always reaches the column where the remainders are of equal length, so that the last cell is never read unwritten |
| `Banded.AnswerInBand` | contrib/fuzzystrmatch/levenshtein.cpp:365-369 | after the last row the last column holds the true distance |
| `Banded.RunIsRight` | contrib/fuzzystrmatch/levenshtein.cpp:193-369 | the two-row program returns the distance, or, with a bound, the smaller of the distance and the bound plus one |
| `Banded.FullRunIsRight` | contrib/fuzzystrmatch/levenshtein.cpp:193-369 | without a bound it returns the distance for prices of any sign |
| `Banded.TheoreticalRange` | contrib/fuzzystrmatch/levenshtein.cpp:137-152 | the theoretical minimum and maximum do bound the distance, whenever detours earn nothing |
| `Banded.FirstRowDead` | contrib/fuzzystrmatch/levenshtein.cpp:154-169 | columns at or beyond the first stop column are out of reach in the first row |
| `Banded.HonestAnswer` | contrib/fuzzystrmatch/levenshtein.cpp:49-370 | with honest prices the bounded program returns the distance if it is within the bound, and else exactly the bound plus one |
| `BandedPrices.EarlyExitIff` | contrib/fuzzystrmatch/levenshtein.cpp:141-144 | the early exit is sound for all strings and bounds if and only if insertions and deletions both cost nothing or less, or detours earn nothing |
| `BandedPrices.ExitMisleads` | contrib/fuzzystrmatch/levenshtein.cpp:141-144 | strings at distance zero that the program reports as farther than four apart |
| `BandedPrices.SentinelsMislead` | contrib/fuzzystrmatch/levenshtein.cpp:339-356 | if one of insertion and deletion earns something, less than the other costs, and substitutions are not free, there are strings that the program reports within bound zero and that are not |
| `BandedPrices.AlwaysRightIff` | contrib/fuzzystrmatch/levenshtein.cpp:49-370 | the bounded program is right for all strings of up to 255 characters and all bounds if and only if the prices are honest |
| `Levenshtein.FillCell` | contrib/fuzzystrmatch/levenshtein.cpp:266-276 | one step of the inner loop computes the recurrence, reads only written cells and stays within the int range |
| `Levenshtein.FillMultibyte` | contrib/fuzzystrmatch/levenshtein.cpp:250-280 | the multi-byte inner loop fills the row of the character-level program |
| `Levenshtein.FillSingleByte` | contrib/fuzzystrmatch/levenshtein.cpp:281-299 | the single-byte fast path fills the same row |
| `Levenshtein.WidenBand` | contrib/fuzzystrmatch/levenshtein.cpp:222-225 | the band grows by one column, and every cell the next row reads has been written |
| `Levenshtein.SlideStop` | contrib/fuzzystrmatch/levenshtein.cpp:329-337 | the right edge moves left to the last column within the bound |
| `Levenshtein.SlideStart` | contrib/fuzzystrmatch/levenshtein.cpp:339-356 | the left edge moves right to the first column within the bound, leaves sentinels in both rows and keeps the data pointer on the character boundary |
| `Levenshtein.TrimBand` | contrib/fuzzystrmatch/levenshtein.cpp:318-361 | both slides, and the verdict that the edges cross |
| `Levenshtein.NextRow` | contrib/fuzzystrmatch/levenshtein.cpp:209-363 | one iteration over bytes is one step of the character-level program, and keeps all cells it will read written and small |
| `Levenshtein.RowLoop` | contrib/fuzzystrmatch/levenshtein.cpp:208-369 | the loop over the rows, with the two arrays swapped, ends with the answer of the character-level program |
| `Levenshtein.BandedRows` | contrib/fuzzystrmatch/levenshtein.cpp:193-369 | the same from the first row on |
| `Levenshtein.PlanBand` | contrib/fuzzystrmatch/levenshtein.cpp:137-170 | the early exit, the cap, the test for an idle bound and the first stop column, for prices of any sign |
| `Levenshtein.LevenshteinInternal` | contrib/fuzzystrmatch/levenshtein.cpp:63-370 | the unbounded form returns the distance for prices of any sign; too long only when both strings are non-empty and one exceeds 255 characters |
| `Levenshtein.LevenshteinLessEqualInternal` | contrib/fuzzystrmatch/levenshtein.cpp:49-370 | the bounded form returns the answer of the character-level program for prices of any sign, hence, with honest prices, the distance or the bound plus one |
| `Levenshtein.LevenshteinWithCosts` | contrib/fuzzystrmatch/fuzzystrmatch.cpp:177-187 | on 32-bit prices up to INT_MAX / 1275 in magnitude, no intermediate of the loops overflows and the result is the distance |
| `Levenshtein.LevenshteinLessEqualWithCosts` | contrib/fuzzystrmatch/fuzzystrmatch.cpp:198-209 | the same for the bounded form, any 32-bit bound included; the result is right if the prices are honest |
| `Gist.ScanIsFilter` | src/gausskernel/storage/access/gist/gistget.cpp:216-371 | if keys cover the rows below and matching rows are never pruned, a scan returns exactly the matching rows, in order |
| `Gist.InsertAddsRow` | src/gausskernel/storage/access/gist/gistutil.cpp:270-315 | inserting adds the one row and loses none |
| `Gist.InsertKeepsCovered` | src/gausskernel/storage/access/gist/gistutil.cpp:270-315 | adjusting every key on the way down by union keeps every key covering the rows below it |
| `Gist.BuildKeepsCovered` | src/gausskernel/storage/access/gist/gistutil.cpp:145-191 | a page put above others with the union of their keys covers all their rows |
| `Gist.BuiltIsCovered` | src/gausskernel/storage/access/gist/gistutil.cpp:145-191 | in a tree in which every page's key is the union of its entries' keys, every key covers the rows below it |
| `GistRuns.SplitKeepsCovered` | src/gausskernel/storage/access/gist/gist.cpp:1160-1216 | replacing a page anywhere in the tree by the two halves of a sound split loses no row and keeps every key covering |
| `GistRuns.WidenKeepsCovered` | src/gausskernel/storage/access/gist/gist.cpp:609-650 | adjusting one key for a row that ends up under another, as when the page of the key is split in between, loses no row and keeps every key covering |
| `GistRuns.RunKeepsCovered` | src/gausskernel/storage/access/gist/gist.cpp:499-719 | any number of insertions, insertions started over after adjusting a key, page splits and root splits, in any order: every key covers what is below it, and the rows are those of the beginning and those inserted |
| `Knn.OrderedScan` | src/gausskernel/storage/access/gist/gistget.cpp:216-482 | always taking the nearest queue item returns every matching row once, in nondecreasing distance |
| `Knn.SelectedKeepsRows` | src/gausskernel/storage/access/gist/gistget.cpp:216-371 | entries left out of the queue hold no matching row |
| `Knn.RestNotNearer` | src/gausskernel/storage/access/gist/gistget.cpp:382-414 | when an item is taken, no row still to come is nearer |
| `ByteOrder.Cp` | contrib/btree_gist/btree_utils_var.cpp:94-128 | the longest common prefix: common, and maximal |
| `ByteOrder.Sandwich` | contrib/btree_gist/btree_bytea.cpp:55-61 | between two strings with a common prefix everything has that prefix |
| `ByteOrder.Extension` | contrib/btree_gist/btree_bytea.cpp:55-61 | strings above a prefix either extend it or lie above all its extensions |
| `VarGist.NodeCpLen` | contrib/btree_gist/btree_utils_var.cpp:94-128 | the loop returns the length of the bounds' longest common prefix |
| `VarGist.VarUnion` | contrib/btree_gist/btree_utils_var.cpp:249-280 | the union of all entries, cut two bytes beyond the common prefix |
| `VarGist.HullAttained` | contrib/btree_gist/btree_utils_var.cpp:249-280 | both ends of that range, before the cut, are ends of entries |
| `VarGist.WiderIsShorter` | contrib/btree_gist/btree_utils_var.cpp:94-128 | the common prefix of an enclosing range is no longer |
| `VarGist.CutIsCuttable` | contrib/btree_gist/btree_utils_var.cpp:162-186 | a cut key keeps what makes it safe to cut again: different bounds, the upper at least two bytes beyond the common prefix |
| `VarGist.UnionCovers` | contrib/btree_gist/btree_utils_var.cpp:249-280 | the cut union covers every value any of its entries covers, cut entries included |
| `VarGist.UpperBoundCanBeTooSmall` | contrib/btree_gist/btree_utils_var.cpp:162-186 | a stored upper bound may be smaller than a value below it |
| `VarGist.ConsistentNeverPrunes` | contrib/btree_gist/btree_utils_var.cpp:450-500 | a page whose key covers a matching value is never rejected, for all six strategies |
| `VarGist.FollowedIff` | contrib/btree_gist/btree_utils_var.cpp:450-500 | a page is followed if and only if its key admits a value that satisfies the operator, the strict ones taken as their non-strict forms: one not below the lower bound, and not above the upper one unless it extends a bound; for not-equal, if and only if some value within the bounds does |
| `VarGist.LeafIsExact` | contrib/btree_gist/btree_utils_var.cpp:450-500 | on a leaf key the test is the operator itself |
| `VarGist.OpsSound` | contrib/btree_gist/btree_utils_var.cpp:188-280 | a row's own key covers it and a truncating union covers what any of its members covers |
| `VarSplit.SideCoversIff` | contrib/btree_gist/btree_utils_var.cpp:430-439 | a half cut to the longer of the two prefixes loses nothing if and only if no entry is a cuttable key whose upper bound the half's greatest one continues, before the cut, with a byte below 255 |
| `VarSplit.LeafEntriesSafe` | contrib/btree_gist/btree_utils_var.cpp:430-439 | exact leaf entries are never lost |
| `VarSplit.JoinedIsHull` | contrib/btree_gist/btree_utils_var.cpp:404-428 | the running union of a side is the range of the side |
| `VarSplit.SplitCoversIff` | contrib/btree_gist/btree_utils_var.cpp:430-439 | both pages of a split cover what the entries covered, the invariant of the tree, if and only if every entry is safe in that sense |
| `VarSplit.SplitCanLoseRow` | contrib/btree_gist/btree_utils_var.cpp:430-439 | a page of four keys, produced by union, whose split, as picksplit makes it, gives the left half a key that turns a search for one of its rows away |
| `VarSplit.Picksplit` | contrib/btree_gist/btree_utils_var.cpp:370-445 | the entries are divided into halves in sorted order, nothing lost or repeated; each half's key is its range cut behind the longer of the two common prefixes |
| `VarSplit.NotAfterIff` | contrib/btree_gist/btree_utils_var.cpp:355-368 | that order is by lower and then by upper bounds |
| `VarReach.SideFindsIff` | contrib/btree_gist/btree_utils_var.cpp:430-439 | the key of a half turns away no search, by any strategy, for a value its entries cover if and only if every entry is safe or the half's least lower bound is a prefix of its greatest upper bound |
| `VarReach.SplitFindsIff` | contrib/btree_gist/btree_utils_var.cpp:430-439 | the same of both halves of a split |
| `VarReach.UnsafeYetFound` | contrib/btree_gist/btree_utils_var.cpp:430-439 | a half, made of keys of unions, whose key loses a value and turns no search away |
| `VarReach.ReachedIsFound` | contrib/btree_gist/btree_utils_var.cpp:450-500 | a key finds every value it reaches: one within its bounds, or one that starts like its upper bound up to two bytes beyond a lower bound that is a prefix of it |
| `VarReach.UnionHeals` | contrib/btree_gist/btree_utils_var.cpp:249-280 | a union covers again whatever one of its members reaches, though that member had stopped covering it |
| `VarSplitSearch.SplitIsHarmlessIff` | contrib/btree_gist/btree_utils_var.cpp:370-445 | after a split, all searches of all trees with these keys, whatever rows the keys cover, are exact if and only if no search is turned away in the sense of `SplitFindsIff`; for every other split there is a tree with a row that is missed |
| `VarIndex.LeafPagesAreSafe` | contrib/btree_gist/btree_utils_var.cpp:430-439 | pages of rows are always safe to split |
| `VarIndex.SearchIsExact` | contrib/btree_gist/btree_utils_var.cpp:450-500 | an index that comes about by any insertions and safe splits, from the empty one or one built by union, holds the rows put into it, and every search returns exactly those the operator selects |
| `VarIndex.SplitSpoilsTree` | contrib/btree_gist/btree_utils_var.cpp:430-439 | a tree built by union in which a row is found, and, after one split of its root, is still there and not found |
| `GistMaps.MappedRuns` | src/gausskernel/storage/access/gist/gist.cpp:499-719 | a mapping of keys that agrees with what two operator classes do for rows and unions carries every history of the one index to a history of the other |
| `VarHistory.SideFindsIff` | contrib/btree_gist/btree_utils_var.cpp:430-439 | the exact condition again for entries that have themselves come from splits that left them covering less than they hold |
| `VarHistory.OpsSound` | contrib/btree_gist/btree_utils_var.cpp:249-280 | whatever its members have been through, a union covers all they hold |
| `VarHistory.PlainRuns` | src/gausskernel/storage/access/gist/gist.cpp:499-719 | keys marked with what they have been through and left unmarked go through the same histories |
| `VarHistory.SearchStaysExact` | contrib/btree_gist/btree_utils_var.cpp:450-500 | an index that comes about by any insertions and any splits that turn no search away, safe or not, holds the rows put into it, and every search returns exactly those the operator selects |
| `KeyLayout.NodeReadsBack` | contrib/btree_gist/btree_utils_var.cpp:50-79 | a stored inner key reads back as its two bounds, whatever the padding holds |
| `KeyLayout.KeyCopy` | contrib/btree_gist/btree_utils_var.cpp:64-79 | both layouts read back as the bounds copied, and are as long as announced |
| `KeyLayout.NodeTruncate` | contrib/btree_gist/btree_utils_var.cpp:162-186 | the stored form of a truncated key reads back as the cut bounds |
| `NumGist.HullIsTightest` | contrib/btree_gist/btree_utils_num.cpp:136-158 | the running union is the tightest range around all its entries |
| `NumGist.NumUnion` | contrib/btree_gist/btree_utils_num.cpp:90-115 | the union method computes that range |
| `NumGist.NeverPrunesRow` | contrib/btree_gist/btree_utils_num.cpp:166-204 | a page whose range holds a matching value is never rejected, not-equal included |
| `NumGist.FollowedIff` | contrib/btree_gist/btree_utils_num.cpp:166-204 | a page is followed if and only if some value in its range satisfies the operator, the strict ones taken as their non-strict forms |
| `NumGist.LeafIsExact` | contrib/btree_gist/btree_utils_num.cpp:166-204 | on a leaf key the test is the operator itself |
| `NumGist.DistanceShrinks` | contrib/btree_gist/btree_utils_num.cpp:210-224 | the distance of an enclosing range is no larger |
| `NumGist.DistanceIsMinimum` | contrib/btree_gist/btree_utils_num.cpp:210-224 | the distance of a range is that of the nearest value in it: attained, and no value is nearer |
| `NumGist.LeafDistance` | contrib/btree_gist/btree_utils_num.cpp:210-224 | at a leaf it is the true distance |
| `PageEntries.Halve` | contrib/btree_gist/btree_utils_num.cpp:244-259 | the loop gives the first half of the sorted entries to the left and the rest to the right, each with the running union of its keys |
| `NumSplit.Picksplit` | contrib/btree_gist/btree_utils_num.cpp:226-264 | the entries, none lost or repeated, in the order of their lower and then upper bounds, the smaller half to the left, each half with the tightest range around it |
| `NumIndex.SplitsAreSound` | contrib/btree_gist/btree_utils_num.cpp:226-264 | the two pages of a split cover what the one did |
| `NumIndex.SearchIsExact` | contrib/btree_gist/btree_utils_num.cpp:166-204 | over any total order, an index that comes about by any insertions and splits, from the empty one or one built by union, holds the rows put into it, and every search returns exactly the matching ones |
| `NumIndex.NearestFirst` | contrib/btree_gist/btree_utils_num.cpp:210-224 | the ordered scan of such an index returns every matching row once, nearest first |
| `Cube.CubeUnionV0` | contrib/cube/cube.cpp:653-696 | the padding and widening loops compute the box of least and greatest ends in every dimension |
| `Cube.CubeInter` | contrib/cube/cube.cpp:712-770 | the padding and narrowing loops compute the box of greatest lower and least upper ends |
| `Cube.UnionHasBoth` | contrib/cube/cube.cpp:653-696 | the union holds every point of both boxes |
| `Cube.InterIsIntersection` | contrib/cube/cube.cpp:712-770 | the box returned holds exactly the points in both boxes if and only if they overlap |
| `Cube.CubeOverlapV0` | contrib/cube/cube.cpp:1016-1052 | the loops decide overlap in every dimension, missing ones being zero |
| `Cube.OverlapIsCommonPoint` | contrib/cube/cube.cpp:1016-1052 | boxes overlap exactly if they share a point |
| `Cube.CubeContainsV0` | contrib/cube/cube.cpp:956-986 | the loops decide containment in the dimensions of the second box |
| `Cube.SubsetIsContains` | contrib/cube/cube.cpp:956-986 | the points of b are among those of a exactly if a contains b and a's further dimensions hold zero |
| `Cube.ContainsWithoutSharedPoint` | contrib/cube/cube.cpp:977-985 | boxes of which one contains the other although they share no point |
| `Cube.CmpDims` | contrib/cube/cube.cpp:810-822 | lower ends, then upper ends, in dictionary order |
| `Cube.CubeCmpV0` | contrib/cube/cube.cpp:803-868 | the sign of that order over common, then further dimensions; zero exactly for the same box |
| `Cube.CmpAntisymmetric` | contrib/cube/cube.cpp:803-868 | swapping the boxes swaps the verdict, for all dimensions |
| `CubeOrder.CycleAbove` | contrib/cube/cube.cpp:803-868 | three boxes of given numbers of dimensions, one with fewer than both others and not none, each less than the next, in a circle |
| `CubeOrder.CycleAtOrigin` | contrib/cube/cube.cpp:803-868 | the same for one box without dimensions and two with different numbers of them |
| `CubeOrder.CmpTransitiveIff` | contrib/cube/cube.cpp:803-868 | among boxes of three numbers of dimensions, however spread, the comparison is transitive if and only if the two least agree, or one is zero and the others agree |
| `CubeOrder.CmpIff` | contrib/cube/cube.cpp:803-868 | one box is below another if and only if, at the first difference, an end of it is smaller, in the order lower and then upper ends of the common dimensions, the same for the rest against zero; or there is no difference and it has fewer dimensions |
| `CubeDistance.CubeDistanceSquared` | contrib/cube/cube.cpp:1071-1108 | the loops add up the squared gaps of all dimensions |
| `CubeDistance.GapIsDistance1D` | contrib/cube/cube.cpp:1111-1123 | distance_1D is the gap between two intervals given by any corners |
| `CubeDistance.DistanceIsMinimum` | contrib/cube/cube.cpp:1071-1123 | the squared distance is the minimum over all pairs of points of the two boxes, and is attained |
| `CubeDistance.DistanceSymmetric` | contrib/cube/cube.cpp:1071-1123 | it is symmetric |
| `CubeDistance.ZeroIsOverlap` | contrib/cube/cube.cpp:1016-1123 | it is zero exactly if the boxes overlap |
| `CubeSearch.GCubeUnion` | contrib/cube/cube.cpp:359-383 | the union over an entry vector; with a single entry it returns nothing |
| `CubeSearch.FoldCovers` | contrib/cube/cube.cpp:359-383 | repeated union covers what any of its boxes covers |
| `CubeSearch.FoldIsLeast` | contrib/cube/cube.cpp:359-383 | and every key that covers all the boxes covers their union |
| `CubeSearch.OpsSound` | contrib/cube/cube.cpp:359-383 | boxes make a sound operator class |
| `CubeSearch.NeverPrunesRow` | contrib/cube/cube.cpp:588-640 | Overlap, Same and Contains never prune a row that matches in terms of points, for any mix of dimensions; ContainedBy does not if the query holds zero in its further dimensions |
| `CubeSearch.LeafIsExact` | contrib/cube/cube.cpp:588-612 | on a row the test is the operator in terms of points: Overlap a shared point, Same equal dimensions and the same points, which is comparing equal, Contains and ContainedBy inclusion in the dimensions of the contained box, anything else never |
| `CubeSearch.FollowedIff` | contrib/cube/cube.cpp:616-640 | a page is followed if and only if its key covers some box that satisfies the operator; for Same, one that contains the query, and for ContainedBy, one that overlaps it |
| `CubeSearch.ContainedByIff` | contrib/cube/cube.cpp:588-640 | a box contained in the query is found under every covering key if and only if the query holds zero in its further dimensions |
| `CubeSearch.ContainedByCanMiss` | contrib/cube/cube.cpp:588-640 | a tree built by union in which a ContainedBy search misses its row |
| `CubeSize.RtCubeSize` | contrib/cube/cube.cpp:787-799 | the product of the side lengths |
| `CubeSize.UnitHasSizeOne` | contrib/cube/cube.cpp:787-799 | the unit box of any number of dimensions has size one |
| `CubeSize.CutAddsUp` | contrib/cube/cube.cpp:787-799 | cutting a box at a coordinate inside it gives parts whose sizes add up |
| `CubeSize.MovingKeepsSize` | contrib/cube/cube.cpp:787-799 | moving a box keeps its size |
| `CubeSize.ZeroIffFlat` | contrib/cube/cube.cpp:787-799 | no size is negative, and a size is zero if and only if some side has length zero |
| `CubeSplit.Picksplit` | contrib/cube/cube.cpp:436-563 | the seeds are the first among the most wasteful pairs scanned and go apart; every other entry goes where the union of seed and members placed before it grows less, to the right if there is no difference; every entry is on exactly one side, in page order, and each datum is the union of its side |
| `CubeSplit.GrowthIsSettled` | contrib/cube/cube.cpp:495-560 | a union of given boxes has one size and grows by one amount to take in another, however it came about |
| `CubeSplit.SplitIsSettled` | contrib/cube/cube.cpp:436-563 | what is said of a split determines which entries go where |
| `QuadraticSplit.PickSeeds` | contrib/cube/cube.cpp:462-493 | the two loops find the pair of greatest wasted size among the pairs scanned, and the first such pair |
| `QuadraticSplit.Distribute` | contrib/cube/cube.cpp:495-560 | the loop places every entry by the smaller enlargement, the seeds first |
| `QuadraticSplit.PlacedByGrowth` | contrib/cube/cube.cpp:495-560 | read off the finished split: an entry is on the left if and only if the union of the left seed and the left members before it grows by less to take it in than that of the right ones |
| `QuadraticSplit.EachOnOneSide` | contrib/cube/cube.cpp:495-560 | placing divides the entries: each on one side, in ascending order |
| `QuadraticSplit.DataAreUnions` | contrib/cube/cube.cpp:495-560 | each datum stays the union of its own side |
| `CubeIndex.SplitsAreSound` | contrib/cube/cube.cpp:436-563 | the two pages of a split cover what the one did |
| `CubeIndex.SearchIsExact` | contrib/cube/cube.cpp:588-640 | an index that comes about by any insertions and splits, from the empty one or one built by union, holds the boxes put into it, and every search returns exactly the ones that match in terms of points, under that condition for ContainedBy |
| `GinScan.ExtractQuery` | contrib/btree_gin/btree_gin.cpp:59-100 | where to start, whether the match is partial, and the error for unknown strategies |
| `GinScan.ScanForward` | src/gausskernel/storage/access/gin/ginget.cpp:131-214 | scanning forward until the stop verdict returns exactly the keys from the start on that satisfy the operator |
| `GinScan.NothingAfterStop` | contrib/btree_gin/btree_gin.cpp:107-166 | after a stop verdict no later key matches |
| `GinScan.Search` | contrib/btree_gin/btree_gin.cpp:59-166 | a whole search returns the matching keys not below the starting point, in order |
| `GinScan.ExactIff` | contrib/btree_gin/btree_gin.cpp:59-166 | it returns all matching keys if and only if no matching key is below the type's leftmost value |
| `GinScan.Int8MissesLeast` | contrib/btree_gin/btree_gin.cpp:199-208 | for int8, whose leftmost value is -(2^63 - 1), that fails exactly when the key -2^63 is present and matches a less-than search |
| `GinScan.CharMissesLowerHalf` | contrib/btree_gin/btree_gin.cpp:329-335 | for "char", whose leftmost value is the least signed one while the comparison is unsigned, that fails exactly when a key from 0 to 127 matches a less-than search |
| `GinScan.NumericIsExact` | contrib/btree_gin/btree_gin.cpp:365-392 | for numeric, whose leftmost value is a sentinel below all numbers, the search is always exact |
| `ForeignWalker.MergeIsJoin` | contrib/gauss_connector/deparse.cpp:671-703 | merging a collation state into another is the join of a small lattice |
| `ForeignWalker.JoinLaws` | contrib/gauss_connector/deparse.cpp:671-703 | that join is commutative, associative and idempotent |
| `ForeignWalker.LocCxt.MergeIn` | contrib/gauss_connector/deparse.cpp:671-703 | the in-place merge computes it |
| `ForeignWalker.WalkerList` | contrib/gauss_connector/deparse.cpp:555-576 | a list is accepted exactly if the recursive definition accepts it, and its states are merged into the outer one |
| `ForeignWalker.Walker` | contrib/gauss_connector/deparse.cpp:247-707 | the in-place walker accepts exactly what the recursive definition accepts, and leaves the merged state; what that is, `ForeignExpr.WalkIff` says |
| `ForeignWalker.WalkerNode` | contrib/gauss_connector/deparse.cpp:247-660 | node by node: the same checks in the same order |
| `ForeignCollation.WalkBacked` | contrib/gauss_connector/deparse.cpp:247-707 | a safe collation state always comes from a column of the foreign table below |
| `ForeignCollation.AcceptedCollations` | contrib/gauss_connector/deparse.cpp:195-232 | in every accepted tree each function, operator, array operator or aggregate with an input collation has a foreign column of that collation below it |
| `ForeignCollation.WalkListIsJoin` | contrib/gauss_connector/deparse.cpp:555-576 | a list is accepted exactly if all its members are, with the join of their states |
| `ForeignCollation.OrderDoesNotMatter` | contrib/gauss_connector/deparse.cpp:555-576 | permuting the arguments changes neither verdict nor state |
| `ForeignExpr.WalkIff` | contrib/gauss_connector/deparse.cpp:247-707 | the walk accepts an expression if and only if every node can be sent and every collation used is the one the inputs agree on, and then its state is the join of what the nodes contribute |
| `ForeignExpr.IsForeignIff` | contrib/gauss_connector/deparse.cpp:195-232 | an expression is foreign if and only if every node at or below it is of a supported kind, with shippable function, operators and type, external parameters only, no assignment, and of foreign system columns only ctid and oid; the collation each node uses is the one its inputs agree on; the result is not in conflict; and nothing in it is mutable |
| `ForeignExpr.CheckForeignExpr` | contrib/gauss_connector/deparse.cpp:195-232 | the check itself, with the in-place walker, decides that |
| `Deparse.Deparser.DeparseParam` | contrib/gauss_connector/deparse.cpp:1588-1610 | finds or appends the parameter and prints its number and type |
| `Deparse.Deparser.DeparseVar` | contrib/gauss_connector/deparse.cpp:1441-1485 | prints a remote column or alias, else a parameter |
| `Deparse.OnlyOf` | contrib/gauss_connector/deparse.cpp:1526-1526 | whether a text consists of the given characters |
| `Deparse.Deparser.AppendNumber` | contrib/gauss_connector/deparse.cpp:1522-1535 | quotes special values, puts signed ones in parentheses, and tells whether the text reads as a float |
| `Deparse.Deparser.DeparseConst` | contrib/gauss_connector/deparse.cpp:1495-1578 | the value, the decision about the label and the label, appended one after the other, are the text of the constant, for all three ways of showing the type |
| `Deparse.Deparser.DeparseArrayRef` | contrib/gauss_connector/deparse.cpp:1615-1652 | prints a subscripted array |
| `Deparse.Deparser.DeparseFuncExpr` | contrib/gauss_connector/deparse.cpp:1657-1709 | prints a call, with VARIADIC on the last argument; casts as casts; implicit casts not at all |
| `Deparse.Deparser.DeparseOpExpr` | contrib/gauss_connector/deparse.cpp:1715-1757 | prints prefix, postfix and infix operators in parentheses |
| `Deparse.Deparser.DeparseDistinctExpr` | contrib/gauss_connector/deparse.cpp:1789-1800 | prints IS DISTINCT FROM |
| `Deparse.Deparser.DeparseScalarArrayOpExpr` | contrib/gauss_connector/deparse.cpp:1806-1846 | prints ANY and ALL |
| `Deparse.Deparser.DeparseRelabelType` | contrib/gauss_connector/deparse.cpp:1851-1856 | prints the argument, and the cast unless implicit |
| `Deparse.Deparser.DeparseBoolExpr` | contrib/gauss_connector/deparse.cpp:1861-1890 | prints AND, OR and NOT |
| `Deparse.Deparser.DeparseNullTest` | contrib/gauss_connector/deparse.cpp:1895-1919 | prints IS NULL, or the NOT DISTINCT form for rows |
| `Deparse.Deparser.DeparseArrayExpr` | contrib/gauss_connector/deparse.cpp:1924-1942 | prints ARRAY, with its type if empty |
| `Deparse.Deparser.DeparseExpr` | contrib/gauss_connector/deparse.cpp:1378-1431 | appends to the buffer and the parameter list exactly the tokens and parameters of the printed form, and fails exactly where there is none |
| `ParamNumbering.ParamNumbers` | contrib/gauss_connector/deparse.cpp:1588-1610 | an already listed parameter keeps its number, a new one gets the next |
| `ParamNumbering.PrintNumbers` | contrib/gauss_connector/deparse.cpp:1441-1485 | for every expression: the list only grows, stays free of repeats, holds nothing else, and each number denotes the node it was printed for |
| `ParamNumbering.QueryNumbers` | contrib/gauss_connector/deparse.cpp:2002-2008 | the same over any sequence of expressions with one list: numbers printed early still denote their nodes in the final list |
| `RoundTrip.ConstRoundTrip` | contrib/gauss_connector/deparse.cpp:1495-1578 | a printed constant reads back with its value and type |
| `RoundTrip.ParamRoundTrip` | contrib/gauss_connector/deparse.cpp:1588-1610 | a printed parameter reads back as the node it stands for |
| `RoundTrip.AndOrRoundTrip` | contrib/gauss_connector/deparse.cpp:1861-1890 | AND and OR of two or more operands read back |
| `RoundTrip.CallRoundTrip` | contrib/gauss_connector/deparse.cpp:1657-1709 | function calls read back, VARIADIC included |
| `RoundTrip.NullTestRoundTrip` | contrib/gauss_connector/deparse.cpp:1895-1919 | both forms of null tests read back, IS NOT DISTINCT FROM NULL as the one for null |
| `RoundTrip.SubscriptRoundTrip` | contrib/gauss_connector/deparse.cpp:1615-1652 | a subscripted array reads back with its upper and lower bounds |
| `RoundTrip.CastedRoundTrip` | contrib/gauss_connector/deparse.cpp:1851-1856 | casts by function and by relabelling read back with type and typmod, in any number |
| `RoundTrip.RoundTrip` | contrib/gauss_connector/deparse.cpp:1378-1431 | reading any printed expression without aggregates, on a server that resolves the names occurring in it, operators, functions and casts by operand types, returns the tree and leaves the rest of the text: subscripts with and without lower bounds, row and scalar null tests, and explicit casts with their type and typmod included |
| `RoundTrip.SharedNames` | contrib/gauss_connector/deparse.cpp:1715-1757 | a condition on two remote columns with two operators of the same name meets all this and reads back |
| `RoundTripIff.SubscriptLost` | contrib/gauss_connector/deparse.cpp:1629-1635 | a subscripted column of another table does not read back |
| `RoundTripIff.SubscriptReadsIff` | contrib/gauss_connector/deparse.cpp:1629-1635 | a subscripted column reads back if and only if it is printed as a column |
| `RoundTripIff.CastReadsIff` | contrib/gauss_connector/deparse.cpp:1669-1684 | an explicit cast reads back if and only if it is not a cast of an unlabelled constant that reads as the label of a constant |
| `RoundTripIff.CastIsLabel` | contrib/gauss_connector/deparse.cpp:1851-1856 | in that case the two have the same text |
| `RoundTripIff.PlaceholderReads` | contrib/gauss_connector/deparse.cpp:2026-2032 | in a query that is only explained a parameter reads as a null of its type, and no parameter is listed |
| `AcceptedPrints.Prints` | contrib/gauss_connector/deparse.cpp:1370-1431 | the deparser never refuses an expression the walker accepts |
| `AcceptedPrints.SilentIff` | contrib/gauss_connector/deparse.cpp:1378-1431 | an expression has no text if and only if it is an aggregate or an implicit cast of one |
| `AcceptedPrints.AllSpeakIff` | contrib/gauss_connector/deparse.cpp:1378-1431 | every operand contributes text if and only if no aggregate is printed with the expression |
| `AcceptedPrints.Indistinct` | contrib/gauss_connector/deparse.cpp:1378-1431 | what the text cannot tell apart: AND and OR of one operand, implicit casts, and aggregates, which the walker accepts and the deparser leaves out |
| `StringLiteral.DeparseStringLiteral` | contrib/gauss_connector/deparse.cpp:1345-1366 | the loop appends the quoted form of a value |
| `StringLiteral.RoundTrip` | contrib/gauss_connector/deparse.cpp:1345-1366 | either kind of server, with standard_conforming_strings on or off, reads the value back |
| `StringLiteral.PlainFormIsAmbiguous` | contrib/gauss_connector/deparse.cpp:1349-1356 | without the E form the two would disagree |

## Left out

- LevenshteinInternal: the product of length and price returned when one string is empty is not held to the int range, since the length is not limited there.
- LevenshteinWithCosts: the price limit INT_MAX / 1275 is sufficient for no overflow and not claimed to be the largest such limit.
- LevenshteinLessEqualWithCosts: the same limit, which the price that caps substitutions has to keep, too.
- FillCell: index and pointer arithmetic is unbounded; only values built from prices are held to the int range.
- CubeDistanceSquared: stops before the square root; coordinates are real numbers, without rounding, NaN or infinities.
- RoundTrip.RoundTrip: covers no aggregates, which have no text; implicit casts have none either, so the tree comes back without them and operators are resolved for the operands as the text shows them. It assumes of the remote catalog that it resolves the names in the expression at hand; collations, result typmods of calls and the resolved operator of IS DISTINCT FROM are not in the text and not recovered.
- KeyCopy: how a header holds a size is a parameter with the one law that sizes read back.
- Instances with multi-byte prefixes, collations or leaf-to-node conversion (text, inet, bit): only the bytea instance of the variable-length class is modelled, and fixed-size types through an abstract order.
- `gbt_num_distance` for types without a distance function, which raises an error.
- Penalty functions, and the choice of the page to insert into: any choice is allowed.
- GiST page layout, the size at which a page is split, concurrency and logging; a split into more than two pages is a sequence of splits.
- GIN pages, posting lists and the pending list: an index is its sorted list of distinct keys.
- `qsort`: any sorted permutation, by insertion sort.
- `pg_mblen`, catalog lookups, shippability and type output functions: parameters.
- DeparseExpr: the coordinator's own form of queries, with its branches for columns and aggregates (`coorquery`), is not modelled.
- DeparseFuncExpr: that form also prints implicit casts, which is not modelled.
- Aggregate pushdown (`deparse_agg_node`).
- The text around expressions: target lists, FROM, ORDER BY, locking clauses, identifier quoting.
- Whole-row and system columns: a column reference is one token.
- The cube input parser, subsets and enlargement of cubes: easy members only.
- Soundex, Metaphone and Double Metaphone: tables of cases with shallow properties.
