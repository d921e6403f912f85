# map_generator, modelled in Dafny

`map_generator.py` reads a text file of dependencies between "maps" (named
nodes) and prints a Graphviz layout of them. Alternatively it lists the
maps tier by tier, or the ranked links per tier. This project models its
core:

- **The `Maps` registry** (class `Maps` in `map_generator.dfy`). It holds
  an ordered, duplicate-free list of names and three name → names
  tables: ranked, floating and invisible. `add_maps` and the three `add_*_dependency` methods append to
  them in place, and `read_file` classifies each line with four
  independent pattern searches.
- **The tiers.** `find_leaves` picks the roots of the ranked table.
  `get_next_rank_maps` lists the highers of one map, duplicates removed.
  `build_tiers` and `Quadrant.build` expand the tiers level by level, with
  no global visited set.
- **The serialisers.** These are `get_subgraph_str` (colour bands,
  `rank=same` lines and ranked edges, reversed for the lower quadrants),
  `get_same_ranks`, `get_floating_deps`, `get_invisible_deps`, the
  `list_maps` and `list_links` outputs, and the four-root check.

The modules follow the program's layers:

- `Text` holds the Python 2 string operations the program calls
  (`strip()`, `split(',')`, `join`, `replace`, `'%d'`, `*`).
- `LineParser` holds the four regular-expression searches, written out as
  string functions.
- `Registry` models the registry state as a value, with the effect of one
  line and of a whole file.
- `Tiering` defines the leaves, the successor tier and the level-order
  expansion.
- `Render` holds the printed lines.
- `MapGenerator` holds the classes `Maps` and `Quadrant`. They keep the
  source's fields and loops, and each method is proved against the
  functions of the other modules.

Behaviour of the code that the model follows as written:

- A line containing `=` is not an alias. The code assigns to an undefined
  global `aliases`, which raises `NameError` and ends the read. The model
  stops reading there and builds no tiers.
- Every pattern is searched on every line, so one line can feed several
  tables.
- A tier-1 map is a key of the ranked table that occurs in no ranked list.
  A name that has no ranked entry of its own is never a root.
- A quadrant's edges are only the ranked ones.
- Floating lines are printed once per table entry, with no
  de-duplication by unordered pair.

## Model

| member | source | states |
|---|---|---|
| Text.IsSpace | map_generator.py:158 | the whitespace set `strip()` removes: space, tab, line feed, carriage return, vertical tab and form feed |
| Text.SpanStart | map_generator.py:158 | the first non-whitespace index at or after a position, with only whitespace before it |
| Text.SpanEnd | map_generator.py:158 | one past the last non-whitespace index of a range, with only whitespace after it |
| Text.Strip | map_generator.py:158 | `strip()` is the slice `s[a..a+|r|]` of the input, where only whitespace precedes `a` and only whitespace follows the slice, and the slice begins and ends with non-whitespace |
| Text.Split | map_generator.py:159 | `split(',')` gives at least one part, no part holds the separator, and joining the parts with it gives the input back |
| Text.SplitJoin | map_generator.py:159 | splitting a join of separator-free parts gives the parts back |
| Text.Join | map_generator.py:53 | joining no parts gives the empty string, joining one part gives that part |
| Text.JoinSnoc | map_generator.py:53 | joining one more part adds the separator and that part at the end |
| Text.StripAll | map_generator.py:159 | `map(strip, parts)` strips each part and keeps their number and order |
| Text.StripKeepsOut | map_generator.py:158-159 | stripping adds no character: a character absent from a part is absent from the stripped part |
| Text.ReplaceChar | map_generator.py:46 | `replace(' ', '_')` changes exactly the matching characters |
| Text.Repeat | map_generator.py:296 | `s * n` has length `|s| * n`, begins with `s` when `n > 0`, and repeats with period `|s|`: character `i` equals character `i - |s|` |
| Text.DigitsValueNatToString | map_generator.py:290 | the decimal text of a tier number reads back as that number |
| Text.NatToString | map_generator.py:290 | `'%d' % n` is a non-empty string of decimal digits with no leading zero |
| LineParser.IsSkipped | map_generator.py:146-150 | empty lines and lines starting with `#` are skipped |
| LineParser.IsAlias | map_generator.py:152-153 | the alias search matches exactly when the line holds `=` |
| LineParser.RestOfLine | map_generator.py:140 | `(.*)` captures the longest prefix without a line break |
| LineParser.SkipBlanks | map_generator.py:140 | ` *` drops exactly the leading spaces |
| LineParser.MatchAt | map_generator.py:140 | what a match of `([^>:]*)[:<] *(.*)` with group 1 at `s[p..j]` needs: no `>` or `:` in the group and a `:` or `<` right after it |
| LineParser.StopFrom | map_generator.py:140 | the first `>` or `:` at or after a start, before which no character is either |
| LineParser.LastIn | map_generator.py:140 | the last `<` of a range, after which the range holds none, or none at all |
| LineParser.RankedMatchFrom | map_generator.py:140 | the search from a start on returns a possible match at or after that start |
| LineParser.RankedMatchFromLeftmostLongest | map_generator.py:140 | that match has the leftmost start at or after the start, and from it the longest group; when it finds none, no start there can match |
| LineParser.RankedMatch | map_generator.py:140 | `re.search` of the ranked pattern matches exactly when the line holds `:` or `<`; it returns the leftmost match start and, for it, the greatest end of the greedy group |
| LineParser.RankedMatchWithoutArrow | map_generator.py:140 | on a line without `>`, the ranked search splits at the first `:`, or else at the last `<` |
| LineParser.RankedMatchExample | map_generator.py:140 | on `a<b<c` the greedy group is `a<b` |
| LineParser.SplitAtFirst | map_generator.py:141-142 | the floating and invisible searches split at the first `~` or `{`, and match exactly when the line holds it |
| LineParser.MakeDirective | map_generator.py:158-159 | the left name is the stripped first group; the right side has one name per comma-separated part of the rest of the line after the separator and blanks, each the stripped part, and no name holds a comma |
| LineParser.RankedDirective | map_generator.py:156-159 | a ranked directive is found exactly when the line holds `:` or `<` |
| LineParser.FloatingDirective | map_generator.py:164-167 | a floating directive is found exactly when the line holds `~` |
| LineParser.InvisibleDirective | map_generator.py:172-175 | an invisible directive is found exactly when the line holds `{` |
| Registry.AppendNew | map_generator.py:111-114 | the "append if absent" loop of `add_maps`, `get_next_rank_maps` and `build_tiers`; its properties are the `AppendNew*` lemmas below |
| Registry.AppendNewSpec | map_generator.py:111-114 | `add_maps` keeps the old list as a prefix, its members become the old ones plus the new names, and a duplicate-free list stays duplicate-free |
| Registry.AppendNewIsFirstOccurrences | map_generator.py:111-114 | what `add_maps` appends is the not-yet-present names in order of first occurrence |
| Registry.AppendNewSnoc | map_generator.py:112-114 | one more name is appended only when it is absent |
| Registry.AppendNewConcat | map_generator.py:211-214 | appending the names of `a + b` is appending those of `a`, then those of `b` |
| Registry.AppendNewPresent | map_generator.py:112-114 | names already present change nothing |
| Registry.AppendNewStep | map_generator.py:112-114 | one pass of the "append if absent" loop |
| Registry.Register | map_generator.py:161-162 | `add_maps([lower])` then `add_maps(highers)`; stated by `RegisterAdds` |
| Registry.Extended | map_generator.py:116-136 | `add_*_dependency`: the key set gains `lower`, whose list is the previous list (empty if absent) followed by `highers`; other keys are unchanged |
| Registry.RegisterAdds | map_generator.py:161-162 | `add_maps([lower])` then `add_maps(highers)` keeps the old list as a prefix, adds exactly both sides, and keeps it duplicate-free |
| Registry.ExtendedRegistered | map_generator.py:160-162 | after a directive every name in the table is in `maps` |
| Registry.Apply | map_generator.py:156-178 | one matched search: its table is extended and its names registered; stated by `ApplyTables`, `ApplyMaps` and `ApplyConsistent` |
| Registry.ApplyLine | map_generator.py:145-154 | a line stops the read exactly when it is neither blank nor a comment and holds `=`, and blank and comment lines change nothing |
| Registry.ApplyLines | map_generator.py:145-180 | the `read_file` loop over all lines; stated by `ApplyLinesCompletes`, `ApplyLinesConsistent` and `ApplyLinesRegistersNames` |
| Registry.ApplyLinesCompletes | map_generator.py:145-154 | the read completes exactly when no line other than a blank or comment line holds `=` |
| Registry.ApplyTables | map_generator.py:156-178 | a match changes only the table of its kind |
| Registry.ApplyMaps | map_generator.py:156-178 | a match adds exactly its names to `maps`, after the old entries |
| Registry.ApplyFound | map_generator.py:156-178 | the ranked, floating and invisible matches applied in that order; stated by `ApplyFoundMaps` and `ApplyFoundTables` |
| Registry.ApplyConsistent | map_generator.py:156-178 | one match keeps `maps` duplicate-free and every table name in `maps` |
| Registry.ApplyLineConsistent | map_generator.py:145-178 | one line keeps that invariant |
| Registry.ApplyLinesConsistent | map_generator.py:145-178 | a whole read keeps that invariant |
| Registry.ApplyFoundMaps | map_generator.py:156-178 | the three searches of a line together add exactly their names to `maps`, after the old entries |
| Registry.ApplyFoundTables | map_generator.py:156-178 | each table is extended by its own search's directive or left unchanged |
| Registry.ApplyLineEffect | map_generator.py:145-178 | blank and `#` lines change nothing; a `=` line stops the read; any other line extends the table of each matching pattern under its stripped left name and leaves the others unchanged, and `maps` gains exactly the names found |
| Registry.ApplyLinesKeepsNames | map_generator.py:145-178 | reading lines never removes a name |
| Registry.ApplyLineRegisters | map_generator.py:156-178 | a line that is not blank, a comment or an alias is read, and puts both sides of each of its directives into `maps` |
| Registry.ApplyLinesKeepsFound | map_generator.py:145-178 | if the read completes, a name that a directive of any non-comment line mentions is in `maps` at the end |
| Registry.ApplyLinesRegistersNames | map_generator.py:145-178 | after a complete read, `maps` is duplicate-free and holds every name on either side of every directive of every non-comment line |
| Tiering.IsLeaf | map_generator.py:183-185 | a root is a key of the ranked table that no ranked list names |
| Tiering.Leaves | map_generator.py:182-192 | `find_leaves` keeps at most the entries of `maps`; stated in full by `LeavesSpec` |
| Tiering.LeavesSpec | map_generator.py:182-192 | `find_leaves` keeps exactly the entries of `maps` that are keys listed by no key, and none twice |
| Tiering.LeavesAppend | map_generator.py:187-190 | the leaves follow the order of `maps` |
| Tiering.LeavesOfConsistent | map_generator.py:182-192 | after a read, the leaves are exactly the roots of the ranked table, each once |
| Tiering.NextRankMaps | map_generator.py:194-201 | `get_next_rank_maps`; stated by `NextRankMapsSpec` |
| Tiering.NextRankMapsSpec | map_generator.py:194-201 | `get_next_rank_maps` lists each higher once, in order of first occurrence, and nothing for a map without an entry |
| Tiering.Gather | map_generator.py:211-212 | the highers of a tier's maps, concatenated; stated by `GatherReaches` |
| Tiering.GatherReaches | map_generator.py:211-212 | the concatenated highers of a tier are exactly the maps some member of the tier lists |
| Tiering.Successors | map_generator.py:209-214 | the tier after a tier; stated by `SuccessorsReaches` |
| Tiering.SuccessorsReaches | map_generator.py:209-214 | the next tier holds exactly the highers of the current tier's maps, each once |
| Tiering.SuccessorsOfEmpty | map_generator.py:211-215 | an empty tier has no successors |
| Tiering.Frontier | map_generator.py:208-217 | level `k` of the expansion; stated by `FrontierStaysEmpty`, `LevelsIsFrontier` and `LevelOrderIsFrontier` |
| Tiering.LevelOrder | map_generator.py:203-217 | the tier list both tier loops leave; stated by the `LevelOrder*` lemmas |
| Tiering.FrontierStaysEmpty | map_generator.py:215-217 | once a level of the expansion is empty, every later level is empty |
| Tiering.LevelsIsFrontier | map_generator.py:208-217 | while the tier loop runs, tier `k` is level `k - 1` of the expansion from the roots |
| Tiering.LevelsGrow | map_generator.py:215-216 | appending the non-empty successor tier keeps the tier-list invariant |
| Tiering.LevelsEnd | map_generator.py:208-217 | when the last tier has no successors, the tier list is complete |
| Tiering.LevelsBound | map_generator.py:208-217 | if the expansion dies at level `d`, fewer than `d + 1` tiers are built: the loop terminates |
| Tiering.LevelOrderIsFrontier | map_generator.py:203-217 | tier `k` of the result is level `k - 1` of the expansion |
| Tiering.LevelOrderNonEmpty | map_generator.py:215-216 | levels `1 .. |tiers| - 2` of the expansion are non-empty |
| Tiering.LevelOrderEnds | map_generator.py:208-217 | the expansion is non-empty below level `|tiers| - 1` and empty at it |
| Tiering.LevelOrderUnique | map_generator.py:203-217 | the tier list is determined by the table and the roots |
| Tiering.LevelOrderStep | map_generator.py:209-216 | a map is in tier `k + 1` exactly when some map of tier `k` lists it |
| Tiering.GatherOutside | map_generator.py:196 | a tier with no table entries has no highers |
| Tiering.SuccessorsBelow | map_generator.py:209-214 | under a strictly decreasing height, successors lie one height lower |
| Tiering.FrontierBelow | map_generator.py:208-217 | level `k` lies `k` heights below the bound |
| Tiering.LayeredDies | map_generator.py:208-217 | on an acyclic (height-layered) table the expansion dies, so both tier loops terminate |
| Tiering.RevisitExample | map_generator.py:208-217 | with no visited set, the same map can sit in several tiers |
| Tiering.UnreachableCycleExample | map_generator.py:182-217 | a cycle no root reaches gives no leaves and the finished tier list `[[], []]` |
| Tiering.ReachableCycleExample | map_generator.py:182-217 | a cycle a root reaches never empties a level, so the tier loops do not end |
| Tiering.CycleFrontier | map_generator.py:208-217 | in that example the levels alternate between `a` and `b` forever after the root |
| MapGenerator.AppendUnder | map_generator.py:118-122 | the per-table body of `add_*_dependency` computes `Extended` |
| MapGenerator.RootIsLeaf | map_generator.py:183-185 | a key outside the set of listed names is exactly a root |
| MapGenerator.Maps.constructor | map_generator.py:103-109 | no names, empty tables, no tiers |
| MapGenerator.Maps.AddMaps | map_generator.py:111-114 | the new `maps` is the old one with the absent names appended once each |
| MapGenerator.Maps.AddRankedDependency | map_generator.py:116-122 | the ranked table becomes `Extended`; nothing else changes |
| MapGenerator.Maps.AddFloatingDependency | map_generator.py:124-129 | the floating table becomes `Extended`; nothing else changes |
| MapGenerator.Maps.AddInvisibleDependency | map_generator.py:131-136 | the invisible table becomes `Extended`; nothing else changes |
| MapGenerator.Maps.ReadDirective | map_generator.py:156-178 | one matched search updates its table, then `maps` with the left and then the right names |
| MapGenerator.Maps.ReadLine | map_generator.py:145-178 | one pass of the read loop has the effect `ApplyLine` describes, and a `=` line changes nothing before it stops |
| MapGenerator.Maps.ReadFile | map_generator.py:138-180 | the registry after reading is the one `ApplyLines` computes; a complete read leaves the level-order tier list from the leaves, and a stopped read leaves no tiers |
| MapGenerator.Maps.FindLeaves | map_generator.py:182-192 | returns `Leaves` of the table over `maps` |
| MapGenerator.Maps.GetNextRankMaps | map_generator.py:194-201 | returns `NextRankMaps` |
| MapGenerator.Maps.NextTier | map_generator.py:209-214 | the nested loops compute the successor tier |
| MapGenerator.Maps.BuildTiers | map_generator.py:203-217 | leaves the level-order tier list from the leaves of the ranked table |
| MapGenerator.Quadrant.constructor | map_generator.py:21-26 | keeps its arguments and leaves the level-order tier list from the one root |
| MapGenerator.Quadrant.NextTier | map_generator.py:32-38 | concatenating the highers, then keeping first occurrences, gives the successor tier |
| MapGenerator.Quadrant.Build | map_generator.py:28-43 | leaves the level-order tier list from `[tier1_map]`, stopping at the first empty successor set |
| Render.Unlines | map_generator.py:47-88 | one line builds that line and a line break; the built string has at least one character per line and, for a non-empty list, ends with a line break |
| Render.UnlinesAppend | map_generator.py:47-88 | building the string piece by piece concatenates the pieces' strings |
| Render.QuoteAll | map_generator.py:53 | quotes each name, in order |
| Render.Quote | map_generator.py:53 | `'"%s"' % x` |
| Render.TierLine | map_generator.py:53 | a band line: indentation, then the quoted names of a tier joined by spaces |
| Render.Band | map_generator.py:50-67 | a colour band has one line per existing tier of its range, in order |
| Render.BandsSplit | map_generator.py:50-67 | the white, yellow and red bands together list the tiers of the whole range once each, in order |
| Render.RankSameLine | map_generator.py:75 | a `{rank=same ...}` line for the quoted names of a tier |
| Render.RankSame | map_generator.py:72-75 | one `rank=same` line per existing tier up to 16 |
| Render.PairsOf | map_generator.py:83 | one pair per listed higher |
| Render.TierPairs | map_generator.py:80-83 | a tier's edges; stated by `TierPairsMembers` |
| Render.EdgePairs | map_generator.py:79-83 | the edges of the tiers from 1 on; stated by `EdgePairsMembers` |
| Render.TierPairsMembers | map_generator.py:80-83 | a tier's edges are exactly its maps paired with their listed highers |
| Render.EdgePairsMembers | map_generator.py:79-87 | the quadrant's edges are exactly the pairs of a map in tiers 1 on and one of its highers |
| Render.EdgeLine | map_generator.py:84-87 | one edge line, with its ends swapped when the ranking is inverted |
| Render.EdgeLines | map_generator.py:84-87 | one edge line per pair, in order |
| Render.Swapped | map_generator.py:84-85 | swaps both ends of each pair |
| Render.EdgeLinesInverted | map_generator.py:84-87 | inverted edges are the plain edges of the swapped pairs |
| Render.SubgraphName | map_generator.py:46 | the subgraph name is the quadrant name with each space replaced by `_` and every other character kept |
| Render.WhiteOpen | map_generator.py:47-49 | the header and the white band's opening: two lines |
| Render.BandOpen | map_generator.py:54-56 | closing the previous band, then opening a coloured band: three lines |
| Render.BandClose | map_generator.py:68-69 | closing the red band, then the indentation line: two lines |
| Render.SubgraphHead | map_generator.py:46-76 | the lines before the edges open with the `subgraph` header and number twelve fixed lines besides the three bands and the same-ranking block |
| Render.SubgraphHeadBands | map_generator.py:47-76 | the white band at offset 2, the yellow band 3 lines after it, the red band 3 lines after that, and the same-ranking block 2 lines after the red band, followed by two empty lines |
| Render.SubgraphLines | map_generator.py:45-90 | the lines before the edges first, then the ranked edges, then the closing brace and an empty line |
| Render.SameRankLine | map_generator.py:98 | a `{rank=same ...}` line pairing the first maps of one tier of two quadrants |
| Render.SameRanks | map_generator.py:92-100 | one line per tier index from 1 up to 16 that both quadrants have, pairing their first maps |
| Render.QuadrantTiersNonEmpty | map_generator.py:28-43 | a quadrant's tiers from 1 on are non-empty, so `get_same_ranks` can take their first maps |
| Render.DepLine | map_generator.py:223 | one floating or invisible line: two quoted names and the attribute |
| Render.KeyLines | map_generator.py:222-223 | one line per listed higher, duplicates kept |
| Render.DepLines | map_generator.py:219-231 | the lines of `get_floating_deps` and `get_invisible_deps` for one key order; stated by the `DepLines*` lemmas |
| Render.DepLinesAppend | map_generator.py:219-231 | the lines of a key order split along the order |
| Render.DepLinesRemove | map_generator.py:219-231 | removing a key from the order removes exactly its lines from the multiset |
| Render.DepLinesSplitAt | map_generator.py:219-231 | the lines of an order are those of the keys before a key, then that key's, then those after it |
| Render.MultisetRemove | map_generator.py:221 | taking one key out of an order takes exactly it out of the multiset of keys |
| Render.DepLinesPermutation | map_generator.py:221 | permuting the key order permutes the lines |
| Render.DepLinesOrderFree | map_generator.py:221 | any dictionary order gives the same multiset of lines |
| Render.DepLinesFirst | map_generator.py:221-223 | the lines of the first key and those of the other keys make up the multiset of lines |
| Render.PermutationStep | map_generator.py:221 | matching the first key of one order with its place in another reduces a permutation to one of the rest |
| Render.DepLinesSource | map_generator.py:219-231 | every floating or invisible line comes from a key and one of its listed names |
| Render.DepLinesComplete | map_generator.py:219-231 | every key and listed name gives a line |
| Render.DepLinesMembers | map_generator.py:219-231 | a line is printed exactly when some key lists the name it joins |
| Render.ListMapsLine | map_generator.py:290 | a `T<k>: ` line with the names of the tier joined by commas |
| Render.ListMaps | map_generator.py:287-291 | one `T<k>: ` line per tier from 1 on, in order |
| Render.ListMapsReadBack | map_generator.py:290 | a `list_maps` line gives back its tier number, and the tier itself when it is non-empty and its names hold no comma |
| Render.LinkLine | map_generator.py:299 | a `list_links` line: the indentation of its tier, the map, ` -> ` and its ranked list |
| Render.TierLinks | map_generator.py:296-299 | the lines of one tier; stated by `TierLinksSource` and `TierLinksComplete` |
| Render.ListLinks | map_generator.py:293-300 | the lines of the tiers from 1 on; stated by `ListLinksSource`, `ListLinksComplete` and `ListLinksMembers` |
| Render.ListLinksSource | map_generator.py:293-300 | every `list_links` line comes from a map of some tier that has a ranked entry |
| Render.ListLinksComplete | map_generator.py:293-300 | every such map and tier gives a line |
| Render.TierLinksSource | map_generator.py:296-299 | every line of one tier comes from a map of it with a ranked entry |
| Render.TierLinksComplete | map_generator.py:296-299 | every map of the tier with a ranked entry gives its line |
| Render.ListLinksMembers | map_generator.py:293-300 | a line is printed exactly for a tier and a map in it with a ranked entry, indented by its tier |
| Render.RootCheck | map_generator.py:247-251 | the check prints nothing exactly when there are four roots, and otherwise prints two lines: the error message, then `Tier1: ` and the roots joined by commas |

## Left out

- The command line is not modelled: `argparse`, the mode dispatch
  (map_generator.py:233-242), `print` and `exit(1)`. Reading the file
  (map_generator.py:144) becomes an input sequence of lines that already
  have their line break removed.
- The top-level `dot` output (map_generator.py:253-285) is not modelled as
  one function. This covers the literal header and `Shaper` lines, and
  building the four quadrants from `tiers[1][0..3]`. Its parts
  (`SubgraphLines`, `SameRanks`, `DepLines`) are modelled.
- The `aliases` field (map_generator.py:108) is never read, so it is left
  out. An alias line ends the read, as the `NameError` does.
- Python 2 dictionaries yield their keys in hash order. `DepLines` takes
  that order as a parameter: any duplicate-free listing of the keys.
  `DepLinesOrderFree` shows that the multiset of lines does not depend on
  it.
- Serialisers return lists of lines, and the printed string is `Unlines`
  of them.
- MapGenerator.Maps.BuildTiers requires an empty tier list. The source
  appends to whatever list is there, but it is called only once, on a
  fresh object.
- MapGenerator.Maps.BuildTiers, MapGenerator.Maps.ReadFile,
  MapGenerator.Quadrant.constructor and MapGenerator.Quadrant.Build
  require that the expansion from the roots dies out. The source loops
  forever exactly when that fails: when a cycle
  of the ranked table is reachable from a root (for `Quadrant.build`, from
  its `tier1_map`). A cycle that no root reaches never enters the tiers
  (`UnreachableCycleExample`); one that a root reaches never ends the loop
  (`ReachableCycleExample`). `LayeredDies` shows that acyclic tables
  satisfy the requirement.
- MapGenerator.Quadrant.Build requires the tier list `[[]]` the
  constructor sets. The source calls it only from there.
- Render.SameRanks requires every tier from 1 on to be non-empty. On an
  empty tier the source would raise `IndexError`. `QuadrantTiersNonEmpty`
  shows that quadrants satisfy it.
- Aliasing is not modelled. The list a new table key stores is the same
  object `add_maps(highers)` then reads, and later lines append to it.
  Nothing else holds that list, so values suffice.
- The regular-expression engine is not modelled. Each search is written
  as the split it performs. `strip()` uses the ASCII whitespace set of
  Python 2 byte strings.
- Text.Join: its own contract covers no part and one part; `JoinSnoc`
  with the base cases fixes every join.
