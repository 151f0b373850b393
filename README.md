# mikeio1d result network: reach geometry and string helpers

This project models two parts of mikeio1d's result network in Dafny.

**Reach geometry.** A `ReachPoint` has a type tag (digitised point or computational grid point), a chainage and x, y, z coordinates. Two points are equal when their chainage and coordinates agree; the tag is ignored. Ordering follows chainage.

A `ReachGeometry` holds the points of one reach, sorted by chainage. It offers:
- the grid-point and digi-point views;
- the distinct chainages;
- the length, which is the chainage span;
- the polyline through the points (`to_shapely`), where consecutive points at the same planar location become one vertex;
- the two conversions between chainage and distance along that polyline.

`from_dotnet_reaches` reads the engine's reaches as plain records and builds a geometry from them.

The geometry implementation module is not part of this model. The behaviour follows the assertions in `tests/test_geometry.py`. Two of those assertions fix readings that differ from a more literal one:
- Construction keeps duplicate points: five points in, five points stored (line 47).
- `length` is last chainage minus first chainage (line 51, and line 111 against lines 118-121). It is not the planar length of the polyline.

Modules:
- `ReachPoints`: points, keys and the point order.
- `ReachGeometries`: construction, views, chainages, length, the polyline and the distance table.
- `RunFolding`: folding runs of equal neighbours.
- `Interpolation`: piecewise-linear lookup over a table, in both directions.
- `EngineReaches`: `from_dotnet_reaches`.
- `PointSets`: `list(set(points))`, one point per group of equal points.
- `GeometryExamples`: the concrete situations the tests describe.
- `Results`: `Option` and `Result`.

**String helpers** (`mikeio1d/result_network/various.py`).
- `VariableNames` models `make_proper_variable_name`. It is a pipeline of five rewrites. Python's `IndexError` on an empty intermediate string is modelled as an `Err` result.
- `HtmlRepr` models the HTML representation:
  - the escaped header;
  - the fixed style block;
  - one `<details>` section per list or dictionary.

  The section builders are methods with loops. Each is proved equal to a functional definition. Unknown section content gives the `ValueError` message as an `Err`.

Planar segment length is a function parameter `segLen`. `IsPlanarDistance` requires it to be non-negative and zero exactly between equal locations, which Euclidean distance satisfies.

## Model

| member | source | states |
|---|---|---|
| ReachPoints.SameIgnoresType | tests/test_geometry.py:15-18 | points that agree on chainage and x, y, z are equal whatever their tags, and neither is less than the other |
| ReachPoints.OrderFollowsChainage | tests/test_geometry.py:17-20 | a larger chainage makes a point strictly greater (and not equal); `p <= q` implies chainage(p) <= chainage(q) |
| ReachPoints.OrderIsTotal | tests/test_geometry.py:18-22 | exactly one of `p < q`, `p == q`, `q < p` holds, and `<` is transitive |
| ReachGeometries.Sort | tests/test_geometry.py:21-22 | the result is sorted and is a permutation of the input |
| ReachGeometries.FromPoints | tests/test_geometry.py:36-47 | the constructed geometry stores every given point (same multiset, same count, duplicates kept) in sorted order |
| ReachGeometries.SortKeepsSorted | tests/test_geometry.py:52-55 | sorting an already sorted list leaves it unchanged |
| ReachGeometries.FromPointsIdempotent | tests/test_geometry.py:52-55 | a geometry's stored points are already in construction order: building a geometry from them gives the same geometry |
| ReachGeometries.SortedKeysUnique | tests/test_geometry.py:43-47 | two sorted key lists that are permutations of each other are equal |
| ReachGeometries.ConstructionIgnoresInputOrder | tests/test_geometry.py:36-47 | any two permutations of the input give the same sequence of (chainage, x, y, z) after construction |
| ReachGeometries.SortedChainagesAscend | tests/test_geometry.py:107-110 | in a sorted list, chainages are nondecreasing from each point to every later one |
| ReachGeometries.Filter | tests/test_geometry.py:48-49 | the filtered list holds only points of the given type taken from the input, and every input point of that type appears in it |
| ReachGeometries.FilterAppend | tests/test_geometry.py:82-85 | filtering a concatenation is the concatenation of the filtered parts, so order is preserved |
| ReachGeometries.FilterCount | tests/test_geometry.py:48-49 | each point occurs in the filtered list as often as in the input if it has the type, otherwise never |
| ReachGeometries.FilterPartition | tests/test_geometry.py:47-49 | grid points and digi points together are exactly the points: multisets add up and the sizes sum to the number of points |
| ReachGeometries.FilterPermutation | tests/test_geometry.py:43-49 | the type views of two permutations have the same contents and sizes |
| ReachGeometries.GridPoints | tests/test_geometry.py:49 | `gridpoints` holds exactly the grid points of the geometry |
| ReachGeometries.DigiPoints | tests/test_geometry.py:48 | `digipoints` holds exactly the digitised points of the geometry |
| ReachGeometries.FilterSorted | tests/test_geometry.py:48-49 | a type view of a sorted list is sorted |
| ReachGeometries.TypeViews | tests/test_geometry.py:47-49 | of a constructed geometry: both views sorted, sizes summing to the point count, contents partitioning the points |
| ReachGeometries.Chainages | tests/test_geometry.py:50 | `chainages` is empty exactly for a geometry without points, is no longer than the points, and starts and ends with the first and last point's chainage |
| ReachGeometries.ChainagesDistinctAscending | tests/test_geometry.py:50 | `chainages` is strictly increasing and holds exactly the chainages occurring among the points |
| ReachGeometries.Length | tests/test_geometry.py:51 | a length exists exactly when the geometry has points |
| ReachGeometries.LengthIsChainageSpan | tests/test_geometry.py:51 | the length is last chainage minus first, is never negative, and is zero exactly when there is one distinct chainage |
| ReachGeometries.Vertices | tests/test_geometry.py:57-60 | the polyline vertices have no two equal neighbours and are at most as many as the points |
| ReachGeometries.ToShapely | tests/test_geometry.py:57-63 | a built line string runs through the folded vertices and has at least two of them |
| ReachGeometries.ToShapelyDefined | tests/test_geometry.py:57-59 | a line string exists exactly when two points lie at different planar locations |
| ReachGeometries.CumulativeDistances | tests/test_geometry.py:66-67 | one cumulative distance per point, the first being 0 |
| ReachGeometries.CumulativeIsPathLength | tests/test_geometry.py:66-73 | the k-th cumulative distance is the polyline length through the first k+1 points |
| ReachGeometries.CumulativeStep | tests/test_geometry.py:66-73 | each cumulative distance is the previous one plus the segment between the two points |
| ReachGeometries.FoldRunsKeepsPathLength | tests/test_geometry.py:60-64 | folding repeated locations does not change the polyline length |
| ReachGeometries.TotalDistanceIsPolylineLength | tests/test_geometry.py:64 | the last cumulative distance equals the length of the line string through the folded vertices |
| ReachGeometries.CumulativeNondecreasing | tests/test_geometry.py:66-73 | cumulative distance never decreases along the locations |
| ReachGeometries.DistancesStep | tests/test_geometry.py:66-78 | cumulative distance never decreases along the points; it stays the same between points of equal chainage where those lie at the same location, and grows between distinct chainages at distinct locations |
| ReachGeometries.TableMonotone | tests/test_geometry.py:66-78 | both columns of the (chainage, distance) table ascend; equal chainages carry equal distances when they lie at the same location; when distinct chainages also lie at distinct locations, equal distances carry equal chainages |
| ReachGeometries.ChainageToDistance | tests/test_geometry.py:66-73 | the first point's chainage maps to distance 0, and over an ascending table every chainage maps into [0, total distance] |
| ReachGeometries.ChainageFromDistance | tests/test_geometry.py:75-78 | distance 0 maps to the first point's chainage, and over an ascending table every distance maps into the chainage span |
| ReachGeometries.ChainageToDistanceOnSegment | tests/test_geometry.py:66-73 | between two consecutive points of different chainage, the distance is the straight line from one point's distance to the next one's |
| ReachGeometries.ChainageFromDistanceOnSegment | tests/test_geometry.py:75-78 | between two consecutive points at different distances, the chainage is the straight line from one point's chainage to the next one's |
| ReachGeometries.DistanceAtPoint | tests/test_geometry.py:66-73 | at a point's chainage, `chainage_to_geometric_distance` is that point's cumulative distance; at the first chainage it is 0 |
| ReachGeometries.ChainageAtPoint | tests/test_geometry.py:75-78 | at a point's cumulative distance, `chainage_from_geometric_distance` is that point's chainage |
| ReachGeometries.ChainageToDistanceMonotone | tests/test_geometry.py:66-73 | a larger chainage never maps to a smaller distance |
| ReachGeometries.ConversionsRoundTrip | tests/test_geometry.py:66-78 | chainage to distance and back returns the chainage, and distance to chainage and back returns the distance |
| RunFolding.FoldRuns | tests/test_geometry.py:57-60 | the folded sequence is no longer than the input, empty only for empty input, keeps the first and last element, and has no equal neighbours |
| RunFolding.FoldRunsMembers | tests/test_geometry.py:60-63 | folding neither invents nor loses values |
| RunFolding.FoldRunsKeepsFolded | tests/test_geometry.py:60 | a sequence without equal neighbours is left unchanged |
| RunFolding.FoldRunsIdempotent | tests/test_geometry.py:60 | folding twice is folding once |
| RunFolding.FoldRunsAppend | tests/test_geometry.py:60-63 | folding distributes over a split point whose two sides differ |
| RunFolding.FoldRunsOfSorted | tests/test_geometry.py:50 | folding a nondecreasing list gives its distinct values, strictly increasing |
| Interpolation.Interp | tests/test_geometry.py:66-78 | over a table whose columns ascend, the looked-up value lies between the first and the last value |
| Interpolation.InterpOnSegment | tests/test_geometry.py:66-78 | between the keys of two neighbouring nodes, where they differ, the lookup is the straight line through those two nodes |
| Interpolation.InterpAtNode | tests/test_geometry.py:66-73 | at a node's key, the lookup returns that node's value |
| Interpolation.InterpMonotone | tests/test_geometry.py:66-73 | over a table whose columns ascend the lookup is monotone in the key |
| Interpolation.InterpRoundTrip | tests/test_geometry.py:66-78 | over a strictly increasing table, looking up forwards and then backwards returns the key |
| EngineReaches.FromDotnetReaches | tests/test_geometry.py:80-81 | the built geometry is sorted and holds exactly the collected engine points |
| EngineReaches.ReachRecordsFiltered | tests/test_geometry.py:82-85 | one reach contributes as many grid points and digi points as it has |
| EngineReaches.CollectedCounts | tests/test_geometry.py:82-85 | the collected points hold the summed grid-point and digi-point counts of all reaches |
| EngineReaches.FromDotnetReachesCounts | tests/test_geometry.py:81-86 | the built geometry has the summed grid and digi counts, and their total as its point count |
| EngineReaches.CollectedOrigin | tests/test_geometry.py:87-106 | every collected grid point is some engine grid point and every digi point some engine digi point |
| EngineReaches.FromDotnetReachesOrigins | tests/test_geometry.py:92-106 | every digi point of the geometry takes its chainage from an engine digi point's M; every grid point is an engine grid point |
| PointSets.Unique | tests/test_geometry.py:23 | one representative per group of equal points: no longer than the input, nonempty for nonempty input, first point kept |
| PointSets.UniqueGroups | tests/test_geometry.py:23 | no two kept points are equal, every kept point comes from the input, and every input point is equal to a kept one |
| GeometryExamples.ComparisonExample | tests/test_geometry.py:15-20 | p1 == p2, p1 < p3, and neither p1 < p2 nor p2 < p1 |
| GeometryExamples.SortExample | tests/test_geometry.py:21-22 | sorting [p3, p1, p2] gives [p1, p2, p3] |
| GeometryExamples.DeduplicationExample | tests/test_geometry.py:23 | deduplicating [p3, p1, p2] and sorting gives [p1, p3] |
| GeometryExamples.FixtureColumns | tests/test_geometry.py:36-42 | the five fixture points are sorted, with chainages 0, 0, 5, 10, 10, three grid and two digi points |
| GeometryExamples.ShuffledColumns | tests/test_geometry.py:36-44 | any shuffle of the fixture gives the same chainage and location columns and the same view sizes after construction |
| GeometryExamples.ShuffledFixtureGeometry | tests/test_geometry.py:46-63 | for any shuffle: 5 points, 3 grid points, 2 digi points, chainages [0, 5, 10], length 10, and a line string through (0, 0), (0.5, 0.5), (1, 1) |
| GeometryExamples.FixtureDistances | tests/test_geometry.py:66-73 | the fixture's cumulative distances are 0, 0, d1, d1 + d2, d1 + d2, with 0 < d1 < d1 + d2 |
| GeometryExamples.FixtureConversions | tests/test_geometry.py:66-78 | on the fixture's columns, chainage 0, 5 and 10 map to distance 0, d1 and d1 + d2, and back |
| GeometryExamples.ShuffledFixtureConversions | tests/test_geometry.py:66-78 | the same six conversions hold for every shuffle of the fixture |
| VariableNames.ReplaceNonAlnum | mikeio1d/result_network/various.py:15 | same length, only letters, digits and '_', every letter or digit kept in place, and every other character replaced by '_' |
| VariableNames.PrefixDigit | mikeio1d/result_network/various.py:19 | the input is kept as the tail of the result; name characters stay name characters; a result never starts with a digit when `extra` is nonempty and does not |
| VariableNames.DropLeading | mikeio1d/result_network/various.py:21 | at most the first character is removed, and on a string without "__" a nonempty result does not start with '_' |
| VariableNames.DropTrailing | mikeio1d/result_network/various.py:23 | at most the last character is removed, and on a string without "__" a nonempty result does not end with '_' |
| VariableNames.CollapseUnderscores | mikeio1d/result_network/various.py:17 | no longer than the input, empty only for empty input, same first and last character, and no "__" left |
| VariableNames.DuplicateUnderscore | mikeio1d/result_network/various.py:17 | doubling an underscore anywhere does not change the result of step 2 |
| VariableNames.CollapseRun | mikeio1d/result_network/various.py:17 | step 2 maps a run of any positive number of underscores to the same string as a single underscore |
| VariableNames.ReplaceSeparator | mikeio1d/result_network/various.py:15 | step 1 turns a separator of non-alphanumeric characters between two words into as many underscores |
| VariableNames.SeparatorCollapsed | mikeio1d/result_network/various.py:15-17 | steps 1 and 2 turn any nonempty separator between two words into exactly one '_' |
| VariableNames.SeparatorBecomesUnderscore | mikeio1d/result_network/various.py:7-24 | two words, the first not starting with a digit, joined by any nonempty separator give the words joined by one '_' |
| VariableNames.SeparatorExample | mikeio1d/result_network/various.py:15-17 | "node--12" becomes "node_12" |
| VariableNames.ReplaceKeepsAlnum | mikeio1d/result_network/various.py:15 | step 1 keeps the letters and digits of the input, in order |
| VariableNames.ReplaceKeepsNameChars | mikeio1d/result_network/various.py:15 | step 1 leaves a string of letters, digits and '_' unchanged |
| VariableNames.CollapseKeepsAlnum | mikeio1d/result_network/various.py:17 | step 2 keeps the letters and digits of its input, in order, and turns name characters into name characters |
| VariableNames.CollapseKeepsCollapsed | mikeio1d/result_network/various.py:17 | step 2 leaves a string without "__" unchanged |
| VariableNames.CollapsedFacts | mikeio1d/result_network/various.py:15-17 | after steps 1 and 2: only name characters, no "__", and the letters and digits of the input in order |
| VariableNames.MakeProperVariableName | mikeio1d/result_network/various.py:7-24 | a result exists whenever steps 1 and 2 leave more than one character |
| VariableNames.AlnumGivesName | mikeio1d/result_network/various.py:21-23 | an input with a letter or digit gives a result, whatever `extra` is |
| VariableNames.NoAlnumNoName | mikeio1d/result_network/various.py:10-12 | an input without letters or digits (empty, or reducing to '_') gives the index error |
| VariableNames.NameDefinedIff | mikeio1d/result_network/various.py:10-23 | a result exists exactly when the input holds a letter or a digit |
| VariableNames.NameCharset | mikeio1d/result_network/various.py:15-23 | with an `extra` of name characters, the result is made of letters, digits and '_' only |
| VariableNames.NameShape | mikeio1d/result_network/various.py:17-23 | with the default `extra`: a nonempty result of name characters, without "__", neither starting nor ending with '_' |
| VariableNames.StripShape | mikeio1d/result_network/various.py:21-23 | steps 4 and 5 on a string of name characters without "__" leave no '_' at either end and add none |
| VariableNames.NameKeepsAlnum | mikeio1d/result_network/various.py:15-23 | with the default `extra`, the letters and digits of the result are exactly those of the input, in order |
| VariableNames.ProperNameIsFixed | mikeio1d/result_network/various.py:15-23 | a proper name (nonempty, name characters, no "__", no '_' at either end) is returned unchanged |
| VariableNames.NameIdempotent | mikeio1d/result_network/various.py:15-23 | with the default `extra`, applying the function to its own result returns that result |
| VariableNames.DefaultExtraIsUndone | mikeio1d/result_network/various.py:19-21 | the default `extra` '_' is removed again by step 4, so it behaves like an empty `extra`, and a result may start with a digit |
| VariableNames.ExtraBeforeDigit | mikeio1d/result_network/various.py:19-23 | an `extra` not starting with '_' survives at the front of a digit-leading name |
| HtmlRepr.Escape | mikeio1d/result_network/various.py:40 | the escaped header contains no <, >, " or ' and is at least as long as the header |
| HtmlRepr.EscapeRoundTrip | mikeio1d/result_network/various.py:40 | unescaping the escaped header gives the header back |
| HtmlRepr.ItemsAppend | mikeio1d/result_network/various.py:87-88 | the items of concatenated value lists are the concatenated items |
| HtmlRepr.DictItemsAppend | mikeio1d/result_network/various.py:74-75 | the items of concatenated entry lists are the concatenated items |
| HtmlRepr.BuildSectionFromList | mikeio1d/result_network/various.py:81-91 | the built section is `<details><summary>name</summary><ul>`, one `<li>value</li>` per value in order, then `</ul></details>` |
| HtmlRepr.BuildSectionFromDict | mikeio1d/result_network/various.py:68-78 | the built section is the same frame with one `<li>key: value</li>` per entry in insertion order |
| HtmlRepr.DictSectionIsListSection | mikeio1d/result_network/various.py:68-91 | a dictionary section is the list section of its "key: value" texts |
| HtmlRepr.ListSectionRoundTrip | mikeio1d/result_network/various.py:81-91 | a list section whose name and values hold no '<' reads back as exactly that name and those values |
| HtmlRepr.DictSectionRoundTrip | mikeio1d/result_network/various.py:68-78 | a dictionary section reads back as its name and its "key: value" texts in order |
| HtmlRepr.RenderSection | mikeio1d/result_network/various.py:43-48 | a section renders exactly when its content is a list or a dictionary |
| HtmlRepr.BuildHtmlReprFromSections | mikeio1d/result_network/various.py:27-50 | the loop's result is the escaped header, the style and the sections in order, or the error for the first unknown content |
| HtmlRepr.HtmlRepr | mikeio1d/result_network/various.py:27-50 | a representation exists exactly when every section is a list or a dictionary; otherwise it is the error of the first unknown section |
| HtmlRepr.RenderSectionsOkIff | mikeio1d/result_network/various.py:42-49 | the representation exists exactly when every section is a list or a dictionary |
| HtmlRepr.RenderSectionsFirstError | mikeio1d/result_network/various.py:42-48 | a failure reports the message of the first section with unknown content, all sections before it being known |
| HtmlRepr.RenderSectionsAppend | mikeio1d/result_network/various.py:42-49 | sections render in input order: concatenated section lists give concatenated HTML, and an error in the first part wins |
| HtmlRepr.Style | mikeio1d/result_network/various.py:53-65 | the style block, character for character |
| HtmlRepr.HtmlReprHeader | mikeio1d/result_network/various.py:40-41 | a representation starts with the escaped header, then the style block, and the header reads back from it |

## Left out

- `mikeio1d/pandas_extension/mikeio1d_accessor.py`: pandas glue that delegates to functions outside this model.
- `geometry_from_node` and `geometry_from_catchment`: they read .NET engine objects. The engine access inside `from_dotnet_reaches` (`GridPoints`, `DigiPoints`, `.Count`) is modelled by plain records.
- The engine fixtures (`river_reach`, `node`, `many_*`) are not part of this model, so neither are their concrete numbers (tests/test_geometry.py:88-106, 111, 117-126).
- Shapely objects are not modelled. This covers `ReachPoint.to_shapely`, the `isinstance` checks, `shape.interpolate` and `centroid`. A line string is its vertex list, and its `length` is `PathLength` over those vertices.
- `ToShapely`: returns no line string when there are fewer than two vertices. This reflects a one-coordinate line string being refused.
- Floating point, `pytest.approx` and `sqrt` are not modelled. The model uses exact `real` arithmetic, and planar distance is the parameter `segLen`, constrained only by `IsPlanarDistance`.
- `ReachGeometries.ChainageToDistance`: requires the chainage to lie within the table. Queries outside it are not modelled.
- `ReachGeometries.ChainageFromDistance`: requires the distance to lie within the table, for the same reason.
- `ReachGeometries.DistanceAtPoint`: requires that consecutive points of equal chainage lie at the same location; otherwise the lookup returns the first such point's distance.
- `ReachGeometries.ChainageAtPoint` and `ReachGeometries.ConversionsRoundTrip`: require that equal chainage means the same location and that distinct chainage means distinct locations, so the table is invertible.
- `random.shuffle` in the fixture is modelled as "for every permutation of the fixture" (equal multisets).
- Order among points with equal chainage is not modelled from the implementation: that module is not part of this model. The model breaks such ties by x, then y, then z.
- `PointSets.Unique`: keeps the first point of each group of equal points, as building a Python `set` does; which element of a group is kept is not observable through the test, which sorts afterwards. The list order of a set's elements (hash order) is not modelled; `Unique` keeps input order.
- f-string formatting of arbitrary Python values is not modelled. List values, dictionary keys and dictionary values are given as their rendered text. A dictionary is its items in insertion order.
- `HtmlRepr.Escape`: models `html.escape` with `quote=True` on the five characters & < > " '.
- `VariableNames.NameShape`: stated for the default `extra` only. With another `extra`, the result begins with that `extra` (`VariableNames.ExtraBeforeDigit`), and its shape depends on what `extra` contains.
