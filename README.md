# Real-estate predictor: address reconciliation, geocoding and cleaning

A Dafny model of the data-preparation core of a NYC real-estate price
predictor. The pipeline:

- combines the five borough sales extracts into one frame, names each
  borough and drops the "N/A" addresses;
- derives each row's geocoding key `BOROUGH_ADDRESS`;
- diffs the local rows against a geocode cache, geocodes the missing
  rows one by one, appends them to the cache and diffs again;
- cleans the rows: a floor per column, cumulative IQR outlier fences,
  and a grouped building category;
- connects to the database with a bounded retry loop;
- inverts or flattens the category tables that relate NYC building
  classes to Zillow-style home types.

The pandas frame is modelled in `frame.dfy`:

- A `Table` holds its labels in order and one `map` from label to `Cell`
  per row.
- Every boolean mask the pipeline applies is `Keep` over a list of
  `Check`s.
- `Select` is one `df[mask]` step, with its `KeyError`, `AttributeError` and `TypeError`.
- The steps that change a frame in place (`insert`,
  `df[col] = ...`) are methods of the class `DataFrame`.
- A row of the geocoding table (`GeoRecord`) is a datatype. `geolocate`,
  which mutates the row it is given, is a method of the class `GeoRow`.
- The loops of the source are methods with loop invariants, each proved
  against a recursive specification function: the threshold loop, the
  IQR loop, the geocoding apply and the retry loop.

Modules:

| file | module | models |
|---|---|---|
| frame.dfy | Frame | cells, rows, masks, concat, rename, insert, assignment |
| categories.dfy | Categories | `mapping`, `intermediary_mapping`, their inversion and flattening |
| sales.dfy | Sales | project/notebook.py:176-197 |
| geotable.dfy | GeoTable | project/notebook.py:221-245, 282-284 and the SQL key rule |
| geocoding.dfy | Geocoding | project/helpers.py:134-164 |
| cachesync.dfy | CacheSync | project/notebook.py:243-284 |
| cleaning.dfy | Cleaning | project/notebook.py:311-336, 373-384 |
| scratch.dfy | Scratch | project/scratch.py:4-30 |
| connection.dfy | Connection | project/refactored_old.py:3-24 |

The comment at project/refactored_old.py:1 promises attempts "every 10
seconds for 100 seconds". The loop, however:

- compares the retry counter with `<=`;
- sleeps after every refused attempt, the last one included.

So with its own constants, giving up takes 11 attempts and 110 seconds of
sleep. `Connection.GivingUpTakes110Seconds` states this. The model
follows the code.

## Model

| member | source | states |
|---|---|---|
| Frame.IndexOf | project/scratch.py:4-5 | on unique labels (as `read_csv` produces), `get_loc` gives the position holding the label; the model returns the first such position |
| Frame.Keep | project/notebook.py:197 | a mask keeps exactly the rows that pass every check, and never more rows than it was given |
| Frame.KeepKeepsEveryCopy | project/notebook.py:317 | a mask keeps every copy of a passing row and no copy of a failing one |
| Frame.KeepIsSubsequence | project/notebook.py:197 | masking never reorders: the kept rows are a subsequence of the input |
| Frame.KeepNothing | project/notebook.py:315 | a mask with no condition keeps every row |
| Frame.KeepThenKeep | project/notebook.py:316-317 | applying two masks in turn equals one mask with both sets of checks |
| Frame.Select | project/notebook.py:317 | one `df[mask]` step: KeyError for an absent column, AttributeError when `.str` meets a column holding values but no string, TypeError when some cell makes the comparison raise, otherwise the passing rows under the same columns |
| Frame.SelectAllKeeps | project/notebook.py:316-317 | masks applied one at a time keep exactly the rows that pass all of them, in order, columns unchanged |
| Frame.SelectAllSucceeds | project/notebook.py:316-317 | the sequence of masks succeeds iff every step's column exists and no row surviving the earlier steps makes it raise |
| Frame.LastStep | project/notebook.py:316-317 | after successful earlier steps, the sequence succeeds iff its last step does |
| Frame.SelectAllErrSticks | project/notebook.py:316-317 | once a step has raised, the later steps change nothing |
| Frame.KeepPreservesWellFormed | project/notebook.py:197 | a mask keeps the labels distinct and every row carrying exactly them |
| Frame.Union | project/notebook.py:176 | the concatenated labels extend the earlier ones, hold exactly the labels of both, and stay distinct; the added labels are new ones taken from the second list, ordered by where each first appears in it |
| Frame.UnionAll | project/notebook.py:176 | folding in the frames one by one keeps the earlier labels in front, holds exactly the labels of all inputs and stays distinct |
| Frame.UnionOfAppend | project/notebook.py:176 | the union with one label list and then another is the union with both laid end to end |
| Frame.UnionAllIsUnion | project/notebook.py:176 | folding in the frames one by one is the union with all their labels laid end to end |
| Frame.AllColumnsInOrder | project/notebook.py:176 | the concatenation's columns are every label of every input once, ordered by where each first appears, frame after frame |
| Frame.AllRows | project/notebook.py:176 | the concatenated rows number the sum of the inputs' rows |
| Frame.Concat | project/notebook.py:176 | ValueError iff there is nothing to concatenate; otherwise the union of the labels, the sum of the row counts, every row in order padded with NaN, and a well-formed frame |
| Frame.Rename | project/notebook.py:179 | renaming keeps the row count and well-formedness, moves the old column's values under the new label, and leaves a frame without the label unchanged |
| Frame.RenameLabelDistinct | project/notebook.py:179 | renaming into a free label keeps the labels distinct |
| Frame.RenameKeyKeys | project/notebook.py:179 | a renamed row carries exactly the renamed labels |
| Frame.WithColumnLabels | project/notebook.py:194 | rows that carried exactly the labels carry exactly the labels plus the new one |
| Frame.DataFrame.constructor | project/notebook.py:176 | the object holds the given frame |
| Frame.DataFrame.Insert | project/notebook.py:194 | `insert` raises ValueError for an existing label or a wrong length and IndexError for a bad position, changing nothing; otherwise the column sits at `loc`, the others keep their order, every row gets its value, and well-formedness is kept |
| Frame.DataFrame.Assign | project/notebook.py:380 | `df[col] = values` raises ValueError on a length mismatch; otherwise an existing column is overwritten in place and a new one appended, with each row's value set |
| Categories.InvertPicksLastGroup | project/scratch.py:13 | the inverted dict knows a class iff some group lists it, and maps it to the last group that lists it |
| Categories.InvertRecoversGroup | project/scratch.py:13 | with disjoint lists, looking up a listed class gives back the group that lists it |
| Categories.InvertOnlyListed | project/scratch.py:13 | a class the inverted dict lacks is in no group's list |
| Categories.FlattenKeepsEveryPair | project/notebook.py:150 | the flattened pairs are exactly the (group, class) listings, even where lists overlap |
| Categories.FlattenSize | project/notebook.py:150 | flattening keeps one pair per listing, repeats included |
| Categories.IntermediaryMappingIsDisjoint | project/helpers.py:70-93 | no class is listed under two groups of `intermediary_mapping` |
| Categories.MappingOverlaps | project/helpers.py:29-68 | `mapping` lists '01 ONE FAMILY DWELLINGS' under more than one group |
| Categories.InvertingMappingLosesGroups | project/helpers.py:29-68 | inverting `mapping` would keep only "Row house" for the one-family class |
| Categories.FlattenKeepsListing | project/notebook.py:150 | a listed class is paired with the group that lists it |
| Categories.FlatteningMappingKeepsGroups | project/notebook.py:150 | the flattened `mapping` keeps all four groups of the one-family class |
| Categories.GroupOf | project/notebook.py:380 | `map(invert_mapping)` on a cell gives a group name or NaN |
| Categories.GroupOfRecoversGroup | project/notebook.py:373-380 | a class listed under a group of `intermediary_mapping` is mapped to that group |
| Categories.GroupOfMissing | project/notebook.py:373-380 | a cell maps to NaN iff it is not a class some group lists |
| Sales.BoroughOf | project/notebook.py:182-191 | a code equal to k in 1..5 gets the name the dict gives k, anything else NaN |
| Sales.BoroughCodesNamed | project/notebook.py:182-191 | codes 1..5 give MANHATTAN, BRONX, BROOKLYN, QUEENS and STATEN ISLAND; the float 3.0 gives BROOKLYN and True gives MANHATTAN; 0, 6, 1.5, the string "1" and NaN give NaN |
| Sales.BoroughNamesAreDistinct | project/notebook.py:182-188 | two codes sharing a name are the same code |
| Sales.RowOfSomeExtract | project/notebook.py:176 | every concatenated row comes from some extract |
| Sales.CodeThenName | project/notebook.py:179-194 | with BOROUGH first, the frame starts with BOROUGH CODE then BOROUGH |
| Sales.FirstExtractLeads | project/notebook.py:176 | the concatenated labels start with the first extract's first label |
| Sales.Unfiltered | project/notebook.py:176-194 | one combined row per input row, before the N/A filter |
| Sales.NameMatchesCode | project/notebook.py:191-194 | every combined row names the borough of its own code |
| Sales.SurvivorIsNamed | project/notebook.py:197 | a row that passes the filter has a textual address free of "N/A" and names its borough |
| Sales.AddressUntouched | project/notebook.py:176-194 | padding, renaming and naming leave ADDRESS as it was |
| Sales.AddressesStayText | project/notebook.py:176-194 | textual addresses in every extract stay textual in every combined row |
| Sales.NamingCanInsert | project/notebook.py:194 | after the rename, inserting BOROUGH at index 1 cannot raise |
| Sales.NamingGivesUnfiltered | project/notebook.py:176-194 | the renamed concatenation with the names set is the unfiltered rows |
| Sales.NameBoroughs | project/notebook.py:176-194 | ValueError for no extracts, KeyError when no extract has BOROUGH, otherwise a well-formed frame whose labels are the renamed union with BOROUGH at index 1 and whose rows are the unfiltered rows |
| Sales.AddressColumnKept | project/notebook.py:179-194 | renaming BOROUGH and inserting the names at index 1 neither adds nor removes ADDRESS |
| Sales.FilterOutcome | project/notebook.py:197 | on the named frame, the "N/A" filter succeeds iff ADDRESS is a column and every combined address is a string; otherwise KeyError, AttributeError or TypeError as above |
| Sales.CombineSales | project/notebook.py:176-197 | the errors of Sales.NameBoroughs; then KeyError when no extract has ADDRESS, AttributeError when every address is a non-missing non-string, TypeError when some other address is not a string; succeeds iff the extracts are non-empty, some carry BOROUGH and ADDRESS, and every combined address is a string; keeps exactly the rows whose ADDRESS lacks "N/A", in order; BOROUGH CODE then BOROUGH lead when BOROUGH led; every row names its borough |
| GeoTable.KeyOf | project/notebook.py:225-227 | the key is text or missing |
| GeoTable.KeyRule | project/notebook.py:225-227 | the key is text iff both parts are, and then is BOROUGH, "_", ADDRESS; a missing part gives a missing key |
| GeoTable.SqlKeyAgrees | project/notebook.py:141 | on what the cache's string columns hold, the notebook's key equals the SQL `CONCAT` key |
| GeoTable.FirstUnderscore | project/notebook.py:225-227 | with no underscore in the borough, the first underscore of a key is the separator |
| GeoTable.KeySplits | project/notebook.py:225-227 | two equal keys with underscore-free boroughs have equal parts |
| GeoTable.BoroughNamesHaveNoUnderscore | project/notebook.py:182-188 | no borough name contains an underscore |
| GeoTable.KeyIdentifiesAddress | project/notebook.py:225-227 | with the borough names used, equal keys mean the same borough and address |
| GeoTable.FirstAbsent | project/notebook.py:221 | the KeyError names a copied column the table lacks |
| GeoTable.GeocodingRows | project/notebook.py:221-227 | KeyError when a copied column is absent; otherwise one row per sales row with its four cells, no coordinates, a false error flag and its key |
| GeoTable.KeysOfAppend | project/notebook.py:266-270 | the keys of an append are the keys of both parts in order |
| GeoTable.Missing | project/notebook.py:243-245 | the missing rows are exactly the local rows whose key the cache does not hold; a missing (NaN) local key is never found, not even beside a NULL cached key |
| GeoTable.UnkeyedIsMissing | project/notebook.py:243-245 | a local row without a key is missing whatever the cache holds |
| GeoTable.MissingIsSubsequence | project/notebook.py:243-245 | the diff keeps the local order |
| GeoTable.MissingKeyCount | project/notebook.py:243-245 | the diff does not de-duplicate: an uncached key is missing as often as it occurs locally |
| GeoTable.NothingMissing | project/notebook.py:282-284 | nothing is missing iff every local key is cached |
| GeoTable.FirstSampleKey | project/helpers_test.py:270-310 | the first fixture row's key is its cached key |
| GeoTable.SecondSampleKey | project/helpers_test.py:270-310 | the second fixture row's key is its cached key |
| GeoTable.ThirdSampleKey | project/helpers_test.py:270-289 | the third fixture row's key is MANHATTAN_20 WEST 123 STREET |
| GeoTable.SampleRows | project/helpers_test.py:270-289 | the fixture gives three fresh geocoding rows in order |
| GeoTable.MissingSample | project/helpers_test.py:314-340 | with two of three rows cached, the diff is the one uncached row, with no coordinates, a false error flag and its key |
| Geocoding.Query | project/helpers.py:146-148 | the query exists iff ADDRESS and BOROUGH are strings; otherwise TypeError |
| Geocoding.QueryShape | project/helpers.py:146-148 | the query is ADDRESS, ", ", BOROUGH, ", New York City" |
| Geocoding.GeolocateOutcome | project/helpers.py:151-164 | an unflagged row with a query is located iff the service returns a first result that is not a partial match, and then takes that result's latitude and longitude; otherwise it is flagged with no coordinates |
| Geocoding.GeolocateKeepsIdentity | project/helpers.py:151-164 | geocoding changes only LATITUDE, LONGITUDE and GEOCODING ERR, never clears the flag, keeps rows consistent, and ends flagged or located |
| Geocoding.GeolocateIdempotent | project/helpers.py:145-164 | a flagged row is returned unchanged with no request; a geocoded row geocoded again is unchanged when the service answers its query as before (the located row is queried again) |
| Geocoding.OnlyFirstResultMatters | project/helpers.py:151-159 | services that agree on the first result geocode every row alike |
| Geocoding.PartialMatchIsNoMatch | project/helpers.py:152-163 | a partial first match is treated as no result |
| Geocoding.GeoRow.constructor | project/helpers.py:134 | the object holds the given row |
| Geocoding.GeoRow.Geolocate | project/helpers.py:134-164 | a flagged row is left untouched and no request is made; otherwise the query is sent once and the row becomes the interpreted response, or the TypeError of the query is raised with the row unchanged |
| CacheSync.GeolocateAll | project/notebook.py:253 | the apply returns one row per input row |
| CacheSync.GeolocateAllPointwise | project/notebook.py:253 | the apply succeeds iff every row's geocoding does, and holds each row's geocoded version at its position |
| CacheSync.GeolocateAllKeepsKeys | project/notebook.py:253 | the geocoded rows carry the input rows' keys |
| CacheSync.GeolocateAllErrSticks | project/notebook.py:253 | once a row raises, the later rows are never reached |
| CacheSync.AppendingCompletes | project/notebook.py:266-284 | after appending rows that carry all missing keys, only rows without a key stay missing, and none when every local row has a key |
| CacheSync.AppendedKeyCount | project/notebook.py:260-270 | after the append an uncached key occurs once per local row that carries it |
| CacheSync.UnkeyedRowRaises | project/helpers.py:145-148 | a row built without a key (its borough or address missing) makes `geolocate` raise TypeError |
| CacheSync.SyncedRowsAreKeyed | project/notebook.py:243-253 | when the apply over the missing rows of the built table succeeds, every local row has a key |
| CacheSync.SyncCache | project/notebook.py:243-284 | raises iff the apply does, appending nothing; otherwise the cache is extended by the geocoded missing rows, what stays missing are local rows without a key, and nothing stays missing when the rows are built as cell 221-227 builds them |
| CacheSync.RepeatedAddressAppendedTwice | project/notebook.py:260-270 | two local rows with one address are both appended to an empty cache |
| Cleaning.RemoveNearZero | project/notebook.py:311-317 | the loop equals the masks applied in turn, succeeds iff every step does, keeps the passing rows in order, and every survivor is at least each threshold |
| Cleaning.NotebookFloors | project/notebook.py:312-317 | with the notebook's thresholds, a successful filtering found SALE PRICE, GROSS SQUARE FEET and LAND SQUARE FEET, and every survivor has a price of at least 100000 and both areas at least 100 |
| Cleaning.Values | project/notebook.py:325-326 | the values a quantile sees are exactly the numbers the column holds, at most one per row, all rows' when every row has one and none when no row has one |
| Cleaning.ValuesOfAppend | project/notebook.py:325-326 | the values keep row order: those of a block of rows come before those of the next |
| Cleaning.Fence | project/notebook.py:325-331 | KeyError for an absent column, TypeError for text; otherwise an inclusive range on that column that can be applied |
| Cleaning.SamplePriceMask | project/helpers_test.py:138-151 | the price floor drops the 100 row and the row without a price |
| Cleaning.SamplePriceStep | project/helpers_test.py:216-228 | the first floor keeps the rows priced 200 to 400 |
| Cleaning.SampleAreaStep | project/helpers_test.py:216-228 | the second floor keeps all three of those rows |
| Cleaning.SampleThresholds | project/helpers_test.py:216-228 | the test's thresholds leave three rows, the lowest at 200 |
| Cleaning.IqrFilter | project/notebook.py:322-336 | one fence per column |
| Cleaning.IqrFilterKeeps | project/notebook.py:322-336 | the filter keeps the columns and exactly the rows inside every fence, in order, each fence computed on the rows the earlier fences left |
| Cleaning.IqrSurvivorsInside | project/notebook.py:330-336 | every survivor lies inside every fence, bounds included |
| Cleaning.IqrFilterStep | project/notebook.py:323-336 | one more column's fence is computed on and applied to the earlier result |
| Cleaning.IqrErrSticks | project/notebook.py:323-336 | once a column raises, the later columns are never reached |
| Cleaning.OutlierStep | project/notebook.py:324-336 | one loop pass raises iff its fence does, and otherwise returns the fence and the rows inside it |
| Cleaning.RemoveOutliers | project/notebook.py:319-336 | the loop equals the cumulative filter, raising what it raises, and keeps the rows inside all fences |
| Cleaning.KeepEverything | project/notebook.py:383-384 | a mask every row passes keeps all rows |
| Cleaning.NothingUngrouped | project/notebook.py:383-384 | when every class has a group, the drop removes nothing |
| Cleaning.GroupedSurvivors | project/notebook.py:380-384 | every remaining row has a group, the one of its own class |
| Cleaning.GroupCategories | project/notebook.py:373-385 | KeyError iff the class column is absent; the warning iff some class has no group; exactly the grouped rows kept in order; each survivor holds its class's group |
| Scratch.SameClassesSameGroups | project/scratch.py:16-24 | rows with the same classes get the same groups |
| Scratch.ClassUntouched | project/scratch.py:16 | setting ZILLOW CATEGORY keeps every class |
| Scratch.InsertedThenTagged | project/scratch.py:4-16 | the empty column inserted first makes no difference once it is assigned |
| Scratch.ZillowDropsUngrouped | project/scratch.py:30 | a row survives the dropna iff its class has a group |
| Scratch.ZillowSurvivors | project/scratch.py:16-30 | every survivor has ZILLOW CATEGORY equal to GROUPED CATEGORY and to its class's group |
| Scratch.FillCategories | project/scratch.py:16-28 | both columns set to each row's group in place; the warning iff some class has no group |
| Scratch.WithZillow | project/scratch.py:4-5 | the new labels are the old ones plus ZILLOW CATEGORY |
| Scratch.WithZillowPlacesColumn | project/scratch.py:4-5 | ZILLOW CATEGORY sits right after BUILDING CLASS CATEGORY and removing it gives back the old labels in order |
| Scratch.InsertZillow | project/scratch.py:4-5 | ValueError iff ZILLOW CATEGORY exists, changing nothing; otherwise the column is placed after the class column and the groups are unchanged |
| Scratch.ZillowCategories | project/scratch.py:4-30 | KeyError without the class column, ValueError when ZILLOW CATEGORY exists; otherwise the rows with a group, tagged, in order, and the warning iff some class has no group |
| Connection.UnavailableIffAllRefused | project/refactored_old.py:9-22 | the engine stays None iff every one of the max_retries + 1 attempts is refused |
| Connection.StopsAtFirstUnrefused | project/refactored_old.py:9-19 | the loop ends at the first attempt not refused, with its engine or re-raising its exception, after exactly that many calls |
| Connection.CallsBounded | project/refactored_old.py:9 | at most max_retries + 1 calls, every call but the last refused |
| Connection.AllRefusedCalls | project/refactored_old.py:9-17 | when all are refused, every one of the remaining calls is made |
| Connection.GivingUpTakes110Seconds | project/refactored_old.py:1-17 | with the script's constants, giving up takes 11 calls and 110 seconds of sleep |
| Connection.Connect | project/refactored_old.py:6-24 | the loop's outcome, call count and seconds slept equal the specification's |
| Connection.AlwaysRefusedGivesUp | project/helpers_test.py:40-54 | with max_retries=2 and every attempt refused, the engine is None after 3 calls |

## Definitions

These members define what the rows above state properties of, or are
helpers of their proofs. Their own contracts only restate how they compute,
so their properties are given by the members in the last column.

| definition | source | its properties are stated by |
|---|---|---|
| Frame.Passes | project/notebook.py:197, 317 | Frame.Keep, Frame.SelectAllSucceeds, Sales.SurvivorIsNamed |
| Frame.Raises | project/notebook.py:197, 317 | Frame.Select, Frame.SelectAllSucceeds, Cleaning.Fence |
| Frame.NoStrings | project/notebook.py:197 | Frame.Select |
| Frame.SelectAll | project/notebook.py:316-317 | Frame.SelectAllKeeps, Frame.SelectAllSucceeds, Frame.LastStep, Frame.SelectAllErrSticks, Cleaning.RemoveNearZero |
| Frame.Labels | project/notebook.py:176 | Frame.UnionAllIsUnion, Frame.AllColumnsInOrder |
| Frame.InOrderOf | project/notebook.py:176 | Frame.Union, Frame.AllColumnsInOrder |
| Frame.AllColumns | project/notebook.py:176 | Frame.AllColumnsInOrder, Frame.Concat |
| Frame.RenameLabel | project/notebook.py:179 | Frame.Rename, Frame.RenameLabelDistinct, Frame.RenameKeyKeys |
| Frame.WithColumn | project/scratch.py:16 | Frame.DataFrame.Assign, Frame.WithColumnLabels |
| Frame.InsertError | project/notebook.py:194 | Frame.DataFrame.Insert, Sales.NamingCanInsert |
| Categories.Invert | project/scratch.py:13, project/notebook.py:373-377 | Categories.InvertPicksLastGroup, Categories.InvertRecoversGroup, Categories.InvertOnlyListed, Categories.InvertingMappingLosesGroups |
| Categories.Flatten | project/notebook.py:150 | Categories.FlattenKeepsEveryPair, Categories.FlattenSize, Categories.FlattenKeepsListing, Categories.FlatteningMappingKeepsGroups |
| Sales.WithBorough | project/notebook.py:179-194 | Sales.NameMatchesCode, Sales.AddressUntouched, Sales.NamingGivesUnfiltered, Sales.SurvivorIsNamed |
| Sales.BoroughColumn | project/notebook.py:191 | Sales.NameBoroughs, Sales.NameMatchesCode |
| GeoTable.Fresh | project/notebook.py:221-227 | GeoTable.GeocodingRows, GeoTable.SampleRows, GeoTable.MissingSample |
| GeoTable.Keys | project/notebook.py:244 | GeoTable.KeysOfAppend, GeoTable.Missing, CacheSync.AppendingCompletes |
| GeoTable.Cached | project/notebook.py:244 | GeoTable.Missing, GeoTable.UnkeyedIsMissing, GeoTable.MissingKeyCount |
| GeoTable.Prepared | project/notebook.py:221-227 | GeoTable.GeocodingRows, CacheSync.UnkeyedRowRaises, CacheSync.SyncCache |
| Geocoding.Interpret | project/helpers.py:151-164 | Geocoding.GeolocateOutcome, Geocoding.PartialMatchIsNoMatch, Geocoding.OnlyFirstResultMatters |
| Geocoding.Geolocated | project/helpers.py:145-164 | Geocoding.GeolocateOutcome, Geocoding.GeolocateKeepsIdentity, Geocoding.GeolocateIdempotent, Geocoding.GeoRow.Geolocate |
| Cleaning.Thresholds | project/notebook.py:312 | Cleaning.NotebookFloors |
| Cleaning.Floors | project/notebook.py:316-317 | Cleaning.RemoveNearZero, Cleaning.NotebookFloors |
| Cleaning.GroupColumn | project/notebook.py:380 | Categories.GroupOfMissing, Cleaning.GroupedSurvivors, Cleaning.GroupCategories |
| Cleaning.Regrouped | project/notebook.py:380 | Cleaning.GroupedSurvivors, Cleaning.GroupCategories |
| Scratch.Zillowed | project/scratch.py:16-24 | Scratch.ZillowSurvivors, Scratch.FillCategories, Scratch.SameClassesSameGroups |
| Scratch.LabelsDiffer | project/scratch.py:4-24 | a helper: the three category labels are different strings; used by Scratch.ClassUntouched, Scratch.ZillowSurvivors, Scratch.ZillowCategories |
| Connection.Run | project/refactored_old.py:6-22 | Connection.UnavailableIffAllRefused, Connection.StopsAtFirstUnrefused, Connection.Connect |
| Connection.Calls | project/refactored_old.py:6-19 | Connection.CallsBounded, Connection.AllRefusedCalls, Connection.StopsAtFirstUnrefused, Connection.Connect |
| Connection.Slept | project/refactored_old.py:15-17 | Connection.GivingUpTakes110Seconds, Connection.Connect |

## Left out

- The SQL layer is not modelled:
  - creating the database, the table, the primary-key column and the `UPDATE`;
  - `to_sql` and `read_sql_query`.
  The cache is the sequence of its records, passed in and returned; reading it back gives what was appended. The SQL key rule is modelled only as `GeoTable.SqlKey`.
- The HTTP request in `geolocate` is not modelled: the parsed response is a `Geocoder` parameter. The Excel downloads of the extracts are not modelled either: the extracts are a parameter.
- A response missing its `results` or `geometry` keys is not modelled; it would raise KeyError.
- pandas' quantile interpolation is not modelled. `Series.quantile` is a parameter and floats are reals. So the outlier example of project/helpers_test.py:232-242 is not reproduced.
- The left merge of the geocodes back onto the sales frame (project/notebook.py:291-305) is not modelled: it has no stated contract.
- Also not modelled: model training, histograms, the Flask app, printing and progress bars. The retry loop's sleep is counted in seconds; the clock is not modelled.
- `filterOutliers`, `check_missing_rows`, `connect_to_database` and `combineHousingDataSets` are called by the tests but defined in no file. Their tests are used only as examples for the inline notebook code.
- `set_index("PRIMARY_KEY", inplace=True)` (project/notebook.py:260) only moves the key into the index, which is written back as a column. The pandas index is not modelled; rows are identified by position.
- project/scratch.py:10 names `invert_mapping` before it is defined. That raises NameError on a fresh kernel and has no other effect, so it is not modelled.
- `pd.read_csv('sales.csv')` (project/scratch.py:3) is not modelled: the frame is a parameter of `Scratch.ZillowCategories`.
- Frame.Rename: requires that the new label is not already a column, because a frame here cannot hold a label twice; pandas would allow the duplicate.
- Sales.NameBoroughs: requires each extract to be well formed and to lack a BOROUGH CODE column of its own. The extracts have neither duplicate labels nor that column.
- Sales.CombineSales: has the same requires as `Sales.NameBoroughs`, for the same reason.
- Frame.Select: names only the checked column in its KeyError, not pandas' full message.
- GeoTable.GeocodingRows: names only the first absent column in its KeyError; pandas lists every missing label.
- Frame.Select: tells AttributeError from TypeError by the cells, because the column's dtype is not modelled; a column whose every cell is missing is taken to hold strings.
- Frame.DataFrame.Insert: does not model `allow_duplicates`, which the pipeline never passes.
- CacheSync.SyncCache: promises an empty re-diff only when every local row is built as cell 221-227 builds it (unflagged, keyed by its own borough and address). A flagged row without a key is skipped by `geolocate`, appended with a NULL key and still missing afterwards, as in pandas, where NaN never matches None.
- CacheSync.AppendingCompletes: promises an empty re-diff only when every local row has a key, for the same reason.
- Sales.BoroughOf: applies the mapping cell by cell, so a `True` code among other codes finds MANHATTAN. pandas matches a code column that holds only booleans against no integer key and gives NaN throughout; such a column is not modelled.
