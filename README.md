# AutoUpdateTAXREF status reconciliation, modelled in Dafny

AutoUpdateTAXREF is a QGIS plug-in. It keeps local GeoPackage layers of French taxa up to date
with the TAXREF registry of the Muséum national d'Histoire naturelle. It does three things:

- It downloads the reference list and keeps the rows of each taxon group.
- It downloads the protection and red-list statuses of every status type.
- It reduces each status type to one table per taxon group and merges that table into the
  layers already saved.

This project models the core of that pipeline as Dafny functions, methods and lemmas:

- **Status types** (`StatusTypes`, statustype.py): the eleven types of the catalogue. Each has a
  mutable "served by the API" flag, kept in a class.
- **Taxon groups** (`TaxonGroups`, taxongroupe.py): the sixteen groups, the row filter
  `filtre_df`, and the title lookups.
- **Reference list** (`TaxRef`, UpdateTAXREF.py): the download link of a version, and the
  row filter `tri_lignes`. Also the column cleanup `tri_colonnes` and the vernacular-name
  cleanup `supprime_nom_vernaculaire`.
- **Status aggregation** (`ReferenceFilter`, `StatusExtractor`, `StatusAggregator`,
  UpdateStatus.py):
  - the CD_REF filter of a page of statuses;
  - the status text of one record;
  - the keyword splitter;
  - `MakeStatusArray`, which renames the columns and groups the records per administrative
    level. A national status type is grouped by CD_REF. A regional one is grouped by
    (historical region, CD_REF).
- **Merge and save** (`SaveStatus`, `ColumnOrder`, UpdateStatus.py and UpdateSaveStatus.py):
  - the outer join of a new status table with the saved layer;
  - the eviction of the columns the new table replaces;
  - the removal of empty rows, empty columns and duplicate rows;
  - the standard column layout.
- **Local version** (`LocalVersion`, GetVersions.py): the smallest VERSION over the nine local
  lists. A missing list counts as -1.
- **New sources** (`SourceCheck`, UpdateSearchStatus.py): the check for bibliography entries
  not yet saved.

The pandas operations the plug-in calls are modelled once, in their own modules:

- `Tables`: DataFrames, `pd.concat` and the in-place `Frame` class;
- `CellOrder`: the order in which `groupby` sorts its keys;
- `Grouping`: `groupby(...).agg("; ".join)`;
- `Merge`: `pd.merge(how="outer")`;
- `Buckets`: the stable sort of the column layout.

Tables hold rows as maps from column name to cell. A cell is a string, an integer or a missing
value (NaN). Every Python exception the code can raise is a `Result` error: `KeyError`,
`ValueError`, `TypeError`, or `IOError` for a file or layer that cannot be read. The GeoPackage
files of the data folder are passed in as a value (`GeoPackages.Folder`).

UpdateStatus2.py is the same text as UpdateStatus.py; rows below cite UpdateStatus.py.

Three behaviours of the code are easy to misread; the model follows the code:

- `extract_status_code` joins its fragments in the order location, status code, keywords, annex.
  It raises TypeError when a present fragment is not a string, for example an integer status
  code. So it is not total.
- `filtre_df` tests each given level on its own. Only `tri_lignes` nests group 2, group 3 and
  family, so that a narrower level is read only when the wider one is given.
- With synonyms allowed, `tri_lignes` compares CD_REF with itself. A row whose CD_REF is missing
  fails that test, since NaN is not equal to NaN.

Some branches that name a group can never fire for the catalogue groups. The model keeps each
one as written, and lemmas state the consequence:

- The bird branches of UpdateStatus.py test the title "Oiseaux" (`"Oiseaux" in taxonTitle`,
  `taxonTitle == "Oiseaux"`). That is a title of the nine older lists (GetVersions.py:27), but
  the catalogue's bird group is titled "Avifaune". `save_global_status` tests the catalogue title
  instead. `TaxonGroups.NoTitleIsBird` states that no catalogue title contains "Oiseaux", and
  `StatusAggregator.CatalogueNeverBird` that the keyword fragment and the bird columns are
  therefore never produced for a catalogue group.
- `supprime_nom_vernaculaire` cleans the layers "Amphibiens", "Reptiles", "Oiseaux" and
  "Mammifères", which are not catalogue titles (`TaxRef.CatalogueTitlesNotCleaned`).
- Matching column groups by prefix puts `source_PNA…` columns into the group of PN
  (`ColumnOrder.PnaSourcesGoToPn`).

## Model

| member | source | states |
|---|---|---|
| StatusTypes.StatusType.constructor | statustype.py:9-17 | A new status type holds the given id, name and level, and is marked as served by the API |
| StatusTypes.StatusType.SetInApi | statustype.py:36-40 | Given an explicit value, the availability flag becomes that value |
| StatusTypes.GetStatusTypesFromIds | statustype.py:84-85 | The result is the catalogue entries whose id is listed: a subsequence of the catalogue, in catalogue order, and no listed entry is missed |
| StatusTypes.StatusIdsOfCatalogue | statustype.py:77-82 | The catalogue ids are the eleven short codes, in declared order, pairwise distinct |
| StatusTypes.NationalTypes | statustype.py:19-23 | A catalogue type is national exactly when its id is one of the six the aggregator hard-codes; every other type is regional |
| StatusTypes.AllIdsGiveCatalogue | statustype.py:82-85 | Asking for every catalogue id returns the whole catalogue |
| StatusTypes.UnknownIdsSelectNothing | statustype.py:84-85 | Ids outside the catalogue select no type |
| TaxonGroups.FiltreDf | taxongroupe.py:60-92 | A KeyError names the first column the conditions read that is missing. Otherwise the result is exactly the group's rows, in their order, with all columns kept |
| TaxonGroups.FiltreMasksKeeps | taxongroupe.py:60-88 | The conjunction of the collected conditions holds of a row exactly when the row is of the kingdom, group 1, present in France, of every given level, and accepted unless synonyms are allowed |
| TaxonGroups.FiltreMasksColumns | taxongroupe.py:60-85 | The collected conditions read exactly the group's columns, in the order they are appended |
| TaxonGroups.FiltreMasksApply | taxongroupe.py:88-90 | Applying the conditions fails on the first missing column and otherwise keeps exactly the group's rows |
| TaxonGroups.OneKingdom | taxongroupe.py:23-30 | No group is more than one of flora, fauna and fungi |
| TaxonGroups.TaxonTitles | taxongroupe.py:247-252 | The catalogue holds sixteen groups whose titles are pairwise distinct |
| TaxonGroups.NoTitleIsBird | UpdateStatus.py:62 | No catalogue title contains "Oiseaux", and none equals it |
| TaxonGroups.LastWord | taxongroupe.py:276 | The last word of a layer name holds no space and ends the name |
| TaxonGroups.GetTaxonTitles | taxongroupe.py:267-281 | No layers give no titles; without a prefix every layer name comes back; with one, exactly the last words of the prefixed layer names that are group titles |
| TaxonGroups.GetTaxonTitlesSnoc | taxongroupe.py:276-280 | One more layer adds its last word at the end when the layer has the prefix and that word is a group title, and nothing otherwise: titles keep the layers' order and repeats |
| TaxonGroups.GetTaxonFromTitles | taxongroupe.py:283-284 | The groups whose title is listed, in catalogue order, none missed |
| TaxonGroups.TaxonFromTitlesDistinct | taxongroupe.py:283-284 | The groups returned for any list of titles carry pairwise distinct titles: one group per title, even when a title is listed twice |
| TaxRef.GetDownloadUrl | UpdateTAXREF.py:34-53 | ValueError below version 1 and past the last published version; otherwise a link under the INPN download prefix |
| TaxRef.DownloadUrlNamesArchive | UpdateTAXREF.py:46-51 | The link of version v ends with the archive code of the v-th published version |
| TaxRef.DownloadUrlsDiffer | UpdateTAXREF.py:46-51 | Two versions get the same link exactly when their archive codes are equal |
| TaxRef.TriLignes | UpdateTAXREF.py:97-130 | A KeyError names the first missing column read. Otherwise the result is exactly the rows meeting kingdom, nested group levels, presence in France and validity, in their order |
| TaxRef.TriMasksKeeps | UpdateTAXREF.py:97-126 | The combined conditions hold of a row exactly when the nested-levels predicate does |
| TaxRef.TriMasksColumns | UpdateTAXREF.py:97-123 | The conditions read kingdom, group 1, the nested optional levels, FR and the validity columns, in that order |
| TaxRef.TriMatchesFiltre | UpdateTAXREF.py:97-130 | For a group with no order list and nested levels, without synonyms, `tri_lignes` keeps the same rows as `filtre_df` |
| TaxRef.CatalogueNested | UpdateTAXREF.py:104-113 | Every catalogue group gives its optional levels only below given ones |
| TaxRef.TriIgnoresOrdre | UpdateTAXREF.py:72-80 | A bat passes `tri_lignes` with the mammal lists but not `filtre_df` for mammals, which also tests the order |
| TaxRef.SynonymeMissingRef | UpdateTAXREF.py:119-123 | With synonyms, a row without CD_REF passes `filtre_df` but not `tri_lignes` |
| TaxRef.TriColonnes | UpdateTAXREF.py:147-164 | KeyError when one of the 38 listed columns is missing. Otherwise every row keeps its other cells, none of the listed columns, and VERSION holds the given version |
| TaxRef.ShortestIndex | UpdateTAXREF.py:190 | `idxmin` of name lengths: the first row whose valid name is shortest, skipping rows without one; None when no row has one |
| TaxRef.ShortestPerName | UpdateTAXREF.py:189-190 | One row per listed name, the shortest row of that name's group; fails exactly when some group has no valid name |
| TaxRef.PickEach | UpdateTAXREF.py:189-190 | One pick per listed name, in the names' order; fails with the `idxmin` ValueError exactly when some name's pick is missing |
| TaxRef.KeepShortestNames | UpdateTAXREF.py:188-191 | KeyError without NOM_VALIDE when there are rows; the columns are kept; otherwise one row per present vernacular name, in sorted name order, each the first row of shortest valid name in its group (`idxmin` per group) |
| TaxRef.VernacularNames | UpdateTAXREF.py:189 | The group keys: strictly sorted, so without repeats, and exactly the vernacular names present in the rows |
| CellOrder.SortCells | UpdateTAXREF.py:189 | Distinct keys come back strictly sorted and as a permutation of the input |
| CellOrder.CellBeforeTotal | UpdateTAXREF.py:189 | Any two different keys are ordered one way or the other; with `CellBeforeIrreflexive` and `CellBeforeTransitive` the key order is a strict total order |
| TaxRef.KeptRowsNamed | UpdateTAXREF.py:188-191 | Every kept row comes from the input, and the kept names are the group keys, in sorted order |
| TaxRef.OneRowPerName | UpdateTAXREF.py:188-191 | The kept rows carry pairwise distinct vernacular names, in strictly sorted order, none missing; every row with a vernacular name has its name kept |
| TaxRef.KeptNameIsShortest | UpdateTAXREF.py:190 | A kept row's valid name is no longer than that of any input row with the same vernacular name |
| TaxRef.SupprimeNomVernaculaire | UpdateTAXREF.py:181-197 | For the four listed layers, the caller's frame loses the rows without a vernacular name, in place, and one row per name is returned. A missing NOM_VERN raises KeyError and leaves the frame as it was. Other layers get the table back unchanged |
| TaxRef.CatalogueTitlesNotCleaned | UpdateTAXREF.py:181-184 | No catalogue title is one of the four cleaned layer names |
| GeoPackages.FileFor | GetVersions.py:36-39 | The flora list lives in Flore.gpkg, every other list in Faune.gpkg |
| GeoPackages.ReadList | UpdateStatus.py:35-39 | Reading a list fails with IOError exactly when its file or its "Liste title" layer is absent |
| ReferenceFilter.IntColumn | UpdateStatus.py:31 | `astype(int)` of a column: KeyError when absent, ValueError when some cell is no integer, otherwise each row's integer |
| ReferenceFilter.AcceptedOnly | UpdateStatus.py:31 | Fails exactly when an id column cannot be read as integers. Otherwise it keeps exactly the records whose reference id equals their taxon id, in order |
| ReferenceFilter.ForList | UpdateStatus.py:45-48 | Fails on a missing or non-integer id column or a missing location. Otherwise it keeps exactly the records whose reference id is a CD_REF of the list and whose location is not overseas |
| ReferenceFilter.ReadLists | UpdateStatus.py:33-39 | Every title's list is read once; the map holds exactly the titles, each bound to its list, and fails when one cannot be read |
| ReferenceFilter.FilterLists | UpdateStatus.py:42-48 | The map holds exactly the titles, each bound to the selection of its list; the first failure ends it |
| ReferenceFilter.FilterByCdRef | UpdateStatus.py:26-51 | An error in the accepted-name filter is returned as is. Otherwise the result succeeds exactly when every list reads and filters, and maps each title to its filtered statuses |
| ReferenceFilter.KeptIffAllThree | UpdateStatus.py:31-47 | A title's statuses are exactly the page's records that are of an accepted name, listed and not overseas, in page order |
| StatusExtractor.KeywordFragment | UpdateStatus.py:61-65 | Empty outside the bird national red list and for falsy remarks; for string remarks the ", "-join of the keywords they contain, in keyword order; TypeError exactly for truthy remarks that are no string (NaN, a non-zero integer) when there is a keyword to test |
| StatusExtractor.TokenStart | UpdateStatus.py:71 | The leftmost position from which the rest of the name is a whole annex or article token, or none |
| StatusExtractor.AnnexFragment | UpdateStatus.py:68-73 | A non-empty fragment is a token that ends the status name and is the longest such token; an empty one means no token ends the name |
| StatusExtractor.LongestTokenSuffix | UpdateStatus.py:68-73 | A non-empty result is a token ending the text, no token starting earlier ends it; an empty one means no token ends the text |
| StatusExtractor.JoinFragments | UpdateStatus.py:84 | TypeError exactly when a truthy fragment is not a string; otherwise the " : "-join of the present fragments |
| StatusExtractor.ExtractStatusCode | UpdateStatus.py:53-86 | The status text is never empty; it fails, with TypeError, exactly when the keyword fragment fails (truthy non-string remarks and some keyword) or a present fragment is not a string |
| StatusExtractor.ExtractStatusCodeMeaning | UpdateStatus.py:84-86 | With no fragment present the text is "No Data"; otherwise it is the join of the present fragments in the order location, code, keywords, annex |
| StatusExtractor.ExtractStatusCodeSplits | UpdateStatus.py:84 | When some fragment is present and none holds a colon, splitting the text on " : " gives back the present fragments |
| StatusExtractor.KeywordFragmentSplits | UpdateStatus.py:62-65 | For bird remarks naming some keyword, splitting the fragment on ", " gives back exactly the keywords found, in keyword order |
| StatusExtractor.BirdRemarksExample | UpdateStatus.py:62-65 | Worked example: remarks naming breeding and wintering birds but no visitors give "Nicheur, Hivernant" |
| StatusExtractor.FilterByKeyword | UpdateStatus.py:124-127 | A missing value gives ""; a string never fails |
| StatusExtractor.FilterByKeywordParts | UpdateStatus.py:127 | When some ";"-part mentions the keyword, the result's ";"-parts are exactly the parts mentioning it, each with " : keyword" removed, in order |
| StatusAggregator.AggColumns | UpdateStatus.py:219 | A status type contributes three joined columns, the first being its own id |
| StatusAggregator.StatusCodes | UpdateStatus.py:193-194 | Every record gets its non-empty status text, in row order; the whole column fails, with TypeError, exactly when some record's text does |
| StatusAggregator.RenameInverse | UpdateStatus.py:197-203 | On a column that is renamed or keeps a free name, the original name can be read back from the new one |
| StatusAggregator.CatalogueRenamesCleanly | UpdateStatus.py:187-203 | For every catalogue type the key columns are free, and renaming the selected columns loses no column |
| StatusAggregator.RenameColumns | UpdateStatus.py:197-203 | Every column takes its new name in place. With a clean renaming every cell is found under the new name and the table stays well formed |
| StatusAggregator.WithAggKey | UpdateStatus.py:103 | KeyError exactly without CD_REF; otherwise every other cell is kept |
| StatusAggregator.NationalRows | UpdateStatus.py:109-119 | The national table has CD_REF and the three status columns, one row per distinct CD_REF; each CD_REF is that of a French record at the level, and every such record is represented |
| StatusAggregator.RegionalRows | UpdateStatus.py:96-108 | A region's table has Région, CD_REF and the status columns; every row is labelled with the region and has a distinct CD_REF; the CD_REFs are exactly those of the records of France, the region or its members at the level |
| StatusAggregator.NationalWithinRegional | UpdateStatus.py:232-233 | A French record at a level passes the filter of every region at that level |
| StatusAggregator.RegionalCoversNational | UpdateStatus.py:232-233 | Every regional table lists the CD_REF of every French record at its level |
| StatusAggregator.DeuxSevreInTwoRegions | UpdateStatus.py:153-155 | Worked example: the department "Deux-Sèvre" belongs to both Poitou-Charentes and Limousin |
| StatusAggregator.StatusByLevel | UpdateStatus.py:95-121 | A national type gives one table, the national one; a regional type gives one table per region, in region order |
| StatusAggregator.GenerateStatusByLevel | UpdateStatus.py:89-121 | The region loop produces exactly the tables of `StatusByLevel` |
| StatusAggregator.AllLevels | UpdateStatus.py:225-234 | The levels give one table per level for a national type and one per level and region otherwise |
| StatusAggregator.Concat | UpdateStatus.py:237 | ValueError exactly for no tables; otherwise exactly the columns some table has, as many rows as all tables together, each row of each table at its place with NaN in the columns its table lacks; distinct columns give a well-formed table |
| StatusAggregator.LevelsNeverEmpty | UpdateStatus.py:225-237 | Once every level has succeeded, the concatenation never raises |
| StatusAggregator.KeywordColumn | UpdateStatus.py:241-243 | KeyError without LRN. Otherwise one column "LRN - keyword" is added, holding each row's keyword part of its LRN, and every other cell is kept |
| StatusAggregator.BirdColumns | UpdateStatus.py:241-243 | Adding the keyword columns one after another keeps the rows, the LRN cells and every earlier column, and each keyword column holds its part |
| StatusAggregator.BirdPostProcess | UpdateStatus.py:240-243 | A bird LRN table without LRN raises KeyError; otherwise it gains the Nicheur, Hivernant and Visiteur columns, each holding that part of the LRN |
| StatusAggregator.PostProcess | UpdateStatus.py:240-247 | Other types are left alone; for REGLLUTTE every status cell gets " - " for " : ", and a missing column fails |
| StatusAggregator.CatalogueNeverBird | UpdateStatus.py:240-243 | For every catalogue title the keyword fragment is empty and post-processing leaves every status table other than REGLLUTTE unchanged |
| StatusAggregator.DashIsJoinSplit | UpdateStatus.py:247 | Replacing " : " by " - " equals splitting on " : " and joining with " - " |
| StatusAggregator.CastToStrAll | UpdateStatus.py:220-221 | The status columns are cast to text in place, one after the other; the first missing one ends the loop with its error |
| StatusAggregator.PrepareRecords | UpdateStatus.py:187-221 | Selection, status texts, renaming and casts give exactly the prepared table |
| StatusAggregator.StatusByLevels | UpdateStatus.py:225-234 | The level loop collects exactly the tables of every level, in level order |
| StatusAggregator.PostProcessInPlace | UpdateStatus.py:240-247 | The frame ends up as the post-processed table, or the error is reported |
| StatusAggregator.MakeStatusArray | UpdateStatus.py:129-258 | The method returns exactly the status table of its inputs: prepared records, levels, concatenation, post-processing and integer CD_REF |
| ColumnOrder.GroupFrom | UpdateStatus.py:363-367 | The first status from a position on whose group the column belongs to, none when there is none |
| ColumnOrder.MatchGroup | UpdateStatus.py:362-367 | The inner loop finds the column's first matching group, or none |
| ColumnOrder.ClassifyColumns | UpdateStatus.py:358-369 | The base group holds the columns of no group, and each group its columns, all in their order |
| ColumnOrder.OrderColumns | UpdateStatus.py:353-385 | The method yields exactly the layout of the names |
| ColumnOrder.RankFollowsKey | UpdateStatus.py:375-383 | Inside a group, ranks order columns exactly as the descending sort key: the status column, then sourceId…, then source… |
| ColumnOrder.OrderedSortsStably | UpdateStatus.py:371-383 | The layout is a permutation of the columns, sorted by position, keeping the input order of equal positions |
| ColumnOrder.OrderedIdempotent | UpdateStatus.py:353-385 | Reordering an ordered layout changes nothing |
| ColumnOrder.OrderedSameNames | UpdateStatus.py:353-385 | The layout names exactly the given columns |
| ColumnOrder.PnaSourcesGoToPn | UpdateStatus.py:364 | Prefix matching puts every `source_PNA…` column in the group of PN |
| ColumnOrder.PnaSourceIdsGoToPn | UpdateStatus.py:364 | Prefix matching puts every `sourceId_PNA…` column in the group of PN |
| ColumnOrder.CatalogueOrderIds | UpdateSaveStatus.py:43-48 | The id list built from the catalogue equals the hard-coded list of the older module |
| ColumnOrder.Reorder | UpdateStatus.py:385 | The same rows under the reordered columns, none lost; the selection never fails |
| SaveStatus.Evicted | UpdateSaveStatus.py:157-162 | A column is evicted exactly when the old layer has it and the new table has it outside the keys, or it is an extra bird column |
| SaveStatus.Light | UpdateSaveStatus.py:163 | The old layer keeps its rows on the columns not evicted, and then shares only keys with the new table |
| SaveStatus.MergeLayers | UpdateSaveStatus.py:168 | The join fails, with a KeyError on a key, exactly when a key is missing on either side; otherwise it holds the columns of both (how its rows pair up: `SaveStatus.OldNewJoined`) |
| SaveStatus.CleanShape | UpdateSaveStatus.py:182-196 | Cleaning gives a well-formed table without duplicate rows, on exactly the columns holding a value |
| SaveStatus.CleanLayout | UpdateSaveStatus.py:196 | The saved columns are distinct and in the standard layout |
| SaveStatus.CleanTraced | UpdateSaveStatus.py:182-196 | Every cleaned row holds the cells of some row of the table: nothing is invented |
| SaveStatus.CleanKept | UpdateSaveStatus.py:172-196 | Every row the pruning keeps survives cleaning, on every column |
| SaveStatus.CleanPrunedHasValues | UpdateSaveStatus.py:172-173 | With pruning, every saved row holds a value outside the keys |
| SaveStatus.MergedOrigin | UpdateSaveStatus.py:163-196 | On the new table's columns every saved row holds one new row's cells or nothing outside the keys, and likewise for the old layer's remaining columns |
| SaveStatus.MergedKeepsNew | UpdateSaveStatus.py:168-196 | Every new row survives on all its columns (when pruning, those holding a value) |
| SaveStatus.MergedKeepsOld | UpdateSaveStatus.py:163-196 | Every old row survives on the columns not evicted (when pruning, those holding a value there) |
| SaveStatus.OldNewJoined | UpdateSaveStatus.py:168 | An old row and a new row that agree on the keys meet in one joined row: old cells on the columns left to the old layer, new cells on the new table's |
| SaveStatus.MergedCombines | UpdateSaveStatus.py:163-196 | After cleaning, an old row and a new row with the same key are still one saved row holding both rows' cells (when pruning, if the new row holds a value) |
| SaveStatus.RegionalSave | UpdateStatus.py:387-422 | Without a layer the new table is only cleaned. With one, the merge on (CD_REF, Région) fails only on a missing key. The result never has duplicate rows |
| SaveStatus.RegionalSaveMerges | UpdateStatus.py:401-414 | Over a layer, saved rows hold a value outside the keys and the new values there; no new row with a value is lost; an old row and a new row with the same CD_REF and Région are saved as one row |
| SaveStatus.NationalMerged | UpdateStatus.py:434-449 | KeyError on CD_REF exactly when either side lacks it; the result has no duplicate rows |
| SaveStatus.NationalSave | UpdateStatus.py:424-461 | Outside "Oiseaux" the merged table; for "Oiseaux" the same rows without LRN, failing when the merged table has no LRN |
| SaveStatus.SaveNationalStatus | UpdateStatus.py:436-444 | Returns the national save; the caller's table gets CD_REF as text in place exactly when both tables have CD_REF |
| SaveStatus.PlanFor | UpdateSaveStatus.py:119-139 | ValueError exactly for a type other than national or regional. Keys start with CD_REF, and Région is a key exactly for regional saves. Only regional saves prune rows. Only the bird national list also drops LRN from the old layer |
| SaveStatus.GlobalSave | UpdateSaveStatus.py:82-203 | Plan errors come first. Without a usable layer the new table is only cleaned. Otherwise it succeeds exactly when both sides have the keys. The result never has duplicate rows |
| SaveStatus.SaveGlobalStatus | UpdateSaveStatus.py:82-203 | Returns the plan's layer name with the global save; the caller's table gets CD_REF as text in place exactly when the merge path casts it |
| SaveStatus.GlobalSaveMerges | UpdateSaveStatus.py:147-196 | Over a non-empty layer, the saved table is the cleaned join of the two cast tables |
| SaveStatus.GlobalNewWins | UpdateSaveStatus.py:157-177 | On the new table's columns, every saved row holds one new row's cells, or nothing outside the keys |
| SaveStatus.GlobalKeepsNew | UpdateSaveStatus.py:147-196 | A national save keeps every new row on all its columns; a regional one, every new row holding a value |
| SaveStatus.GlobalKeepsOld | UpdateSaveStatus.py:157-196 | The old layer loses only its evicted columns (regional: rows without a value there) |
| SaveStatus.GlobalCombines | UpdateSaveStatus.py:157-196 | A stored row is updated, not duplicated: an old row and a new row with the same keys are saved as one row with the old cells on the kept columns and the new cells on the new ones (regional: when the new row holds a value) |
| SaveStatus.GlobalRegionalPrunes | UpdateSaveStatus.py:167-173 | A regional save over a layer keeps only rows holding a value outside CD_REF and Région |
| SaveStatus.GlobalBirdDropsOldLrn | UpdateSaveStatus.py:137-163 | For the bird national list, an LRN column in the saved table comes from the new table |
| SaveStatus.GlobalLayout | UpdateSaveStatus.py:196 | On every path the saved columns are distinct and in the standard layout |
| SaveStatus.GlobalMatchesNational | UpdateSaveStatus.py:134-177 | Outside the bird titles "Oiseaux" and "Avifaune", the newer national save and `SaveNationalStatus` save the same table over a non-empty layer |
| LocalVersion.ColumnMin | GetVersions.py:48 | ValueError on no rows, TypeError on a non-integer cell; otherwise the smallest cell, which occurs in the column |
| LocalVersion.MinOf | GetVersions.py:51 | The smallest element of a non-empty list, and one of its elements |
| LocalVersion.Contribution | GetVersions.py:36-48 | -1 without the file, or without VERSION; IOError without the layer; otherwise the smallest VERSION of the list |
| LocalVersion.VersionsShape | GetVersions.py:33-48 | The versions list has one entry per title, and is built exactly when no title fails |
| LocalVersion.MyVersion | GetVersions.py:33-51 | The local version is defined exactly when every title contributes without error |
| LocalVersion.RecupMyVersion | GetVersions.py:11-51 | The loop and the minimum give exactly the local version |
| LocalVersion.MyVersionIsMinimum | GetVersions.py:27-51 | The version is at most every title's contribution and equal to one of them |
| LocalVersion.MissingFauneForcesMissing | GetVersions.py:38-43 | Without Faune.gpkg the version is at most -1, whatever Flore.gpkg holds |
| LocalVersion.EmptyFolderIsMissing | GetVersions.py:42-51 | Worked example: an empty folder gives exactly -1 |
| SourceCheck.MentionsAny | UpdateSearchStatus.py:27 | True exactly when the folded citation contains some folded discriminant |
| SourceCheck.RelevantSources | UpdateSearchStatus.py:25-29 | KeyError without a citation column. Otherwise it keeps exactly the rows whose citation is a string mentioning a discriminant, in order |
| SourceCheck.LastDiscriminantRedundant | UpdateSearchStatus.py:25 | "ZNIEFFS" never changes the verdict, for any case folding that distributes over concatenation, since a text containing "ZNIEFFS" also contains "ZNIEFF" |
| SourceCheck.CurrentSources | UpdateSearchStatus.py:63-64 | Fails exactly when a year lacks the citation column (KeyError); otherwise the citation column, the id column exactly when either year has it, this year's relevant rows in order followed by last year's, each with its own cells and NaN in the columns its year lacks, and every row relevant |
| SourceCheck.ConcatSources | UpdateSearchStatus.py:63-64 | Concatenating two citation tables of relevant rows keeps the citation column, has an id column exactly when either table has one, and holds only relevant rows |
| SourceCheck.CheckNewSources | UpdateSearchStatus.py:32-44 | KeyError on id when either side lacks it. Otherwise exactly the current rows whose id, as text, is not saved, in order |
| SourceCheck.AbsentIdsAreUnknown | UpdateSearchStatus.py:66-68 | Selecting the current rows by the ids found absent picks exactly the rows whose id is not saved |
| SourceCheck.NothingSavedAllNew | UpdateSearchStatus.py:35 | With nothing saved, every current source is new |
| SourceCheck.AllSavedNoneNew | UpdateSearchStatus.py:35 | When every current id is saved, nothing is new |
| SourceCheck.MySources | UpdateSearchStatus.py:51-61 | The saved "Source" layer, or an empty id/citation table without the file or the layer |
| SourceCheck.SelectNew | UpdateSearchStatus.py:68 | Fails exactly on a missing id or citation column; otherwise an id/citation table |
| SourceCheck.CheckUpdateStatus | UpdateSearchStatus.py:47-72 | Succeeds exactly when both years have citations, some year has ids and the saved table has ids; the result is an id/citation table |
| SourceCheck.NewSourcesAreUnsaved | UpdateSearchStatus.py:63-68 | The reported sources are exactly this year's and last year's relevant sources whose id is not saved, in order, as id/citation |
| SourceCheck.FirstCheckReportsAll | UpdateSearchStatus.py:51-68 | Without a saved "Source" layer every relevant source of the two years is reported |
| Tables.Select | UpdateStatus.py:187-190 | `df[cols]`: KeyError on an unknown name; otherwise the listed columns, each row kept on them |
| Tables.Drop | UpdateTAXREF.py:160 | `drop(columns=…)`: KeyError on an unknown name; otherwise the other columns in order, each row kept on them |
| Tables.DropEmptyColumns | UpdateSaveStatus.py:182 | Exactly the columns holding a value, in order, each row kept on them |
| Tables.DropEmptyColumnsIdempotent | UpdateSaveStatus.py:182 | Removing empty columns a second time keeps every column |
| Tables.DropEmptyRows | UpdateSaveStatus.py:172-173 | Exactly the rows holding a value outside the keys, in order |
| Tables.DropDuplicates | UpdateSaveStatus.py:196 | A subsequence without repeated rows that still holds every row; each row is kept at its first occurrence, so kept rows follow the order of their first positions |
| Seqs.DedupKeepsFirst | UpdateSaveStatus.py:196 | The deduplicated sequence lists its elements in the order of their first positions in the input |
| Tables.DropDuplicatesIdempotent | UpdateSaveStatus.py:196 | Removing duplicates twice removes nothing more |
| Tables.CastToStr | UpdateSaveStatus.py:153-154 | KeyError exactly without the column; otherwise each cell of it is its text, every other cell kept |
| Tables.CastToInt | UpdateStatus.py:256 | KeyError without the column, ValueError on a non-integer cell; otherwise each cell there is the integer `int()` reads from the old cell, every other cell kept |
| Numbers.ParseShow | UpdateStatus.py:256 | `int(str(i)) == i` for every integer |
| Numbers.ParseIntPadded | UpdateStatus.py:256 | Whitespace around a number does not change what `int()` reads |
| Numbers.ParseIntGrouped | UpdateStatus.py:256 | Worked example: `int("1_000")` is 1000; doubled, leading or trailing underscores are a ValueError |
| Tables.MapColumn | UpdateStatus.py:247 | Each cell of the column becomes the function applied to its text, every other cell kept |
| Tables.ApplyMasks | taxongroupe.py:88-90 | KeyError for the first column read that is missing; otherwise exactly the rows where every condition holds, in order |
| Tables.AddColumns | UpdateSearchStatus.py:63-64 | The columns of the first table, in order, then the new ones of the second; no column lost, none invented, no repeats from distinct inputs |
| Tables.AllColumns | UpdateStatus.py:237 | The columns of a list of tables: exactly the names some table has |
| Tables.BlocksRow | UpdateStatus.py:237 | Once each table is re-indexed on the joint columns and the blocks are laid end to end, the `j`-th row of the `i`-th table sits after all the rows of the tables before it |
| Tables.ConcatAll | UpdateStatus.py:237 | `pd.concat` of a list: exactly the columns some table has, and as many rows as all the tables together |
| Tables.ConcatAllRow | UpdateStatus.py:237 | The `j`-th row of the `i`-th table is at position rows-before-it plus `j`, with its own cells and NaN elsewhere |
| Tables.ConcatAllRows | UpdateStatus.py:237 | The same for every row of every table |
| Tables.ConcatTwo | UpdateSearchStatus.py:63-64 | `pd.concat([a, b])` holds the rows of `a`, then those of `b`, each with its own cells and NaN in the columns its table lacks |
| Tables.ConcatAllFirstColumns | UpdateStatus.py:237 | The concatenation's columns start with the first table's, in their order |
| Tables.ConcatAllWellFormed | UpdateStatus.py:237 | Tables with distinct columns concatenate to a well-formed table |
| Tables.ConcatSameColumns | UpdateStatus.py:237 | Tables that share their columns concatenate to a table with exactly those columns |
| Tables.DropMissing | UpdateTAXREF.py:186 | KeyError without the column; otherwise exactly the rows holding a value there, in order |
| Tables.Frame.DropMissingInPlace | UpdateTAXREF.py:186 | The frame becomes its table without the rows missing the column; on KeyError it is unchanged |
| Tables.Frame.CastToIntInPlace | UpdateStatus.py:256 | The frame becomes `CastToInt` of its old table (each cell of the column the integer read from it), or it is unchanged and the error reported |
| Tables.Frame.CastToStrInPlace | UpdateSaveStatus.py:154 | The frame's column becomes text, or the frame is unchanged and KeyError reported |
| Tables.Frame.MapColumnInPlace | UpdateStatus.py:247 | The frame's column is rewritten cell by cell by the given text function, or the frame is unchanged and KeyError reported |
| Tables.Frame.Assign | UpdateTAXREF.py:162 | Every row of the frame gets the given value in the column, which is added when new |
| Grouping.GroupJoin | UpdateStatus.py:105-106 | KeyError for the first missing key or joined column; otherwise the keys then the joined columns, one row per distinct complete key |
| Grouping.GroupKeys | UpdateStatus.py:105 | The group keys are pairwise distinct, each occurs in the input, and every complete key of the input is one of them |
| Grouping.GroupJoinCovers | UpdateStatus.py:105-106 | Output keys are pairwise distinct, each is the key of a complete input row, and every complete input key has an output row |
| Merge.OuterJoin | UpdateSaveStatus.py:168 | Fails on a missing key; otherwise the columns of both tables (its rows: `Merge.OuterJoinCombines`, `Merge.OuterJoinRowKinds`) |
| Merge.OuterJoinKeepsBoth | UpdateSaveStatus.py:168 | Every left row survives on the left columns and every right row on the right columns |
| Merge.OuterJoinOrigin | UpdateSaveStatus.py:168 | On each side's columns every merged row holds one row of that side or nothing outside the keys |
| Merge.OuterJoinWellFormed | UpdateSaveStatus.py:168 | The outer join of two well-formed tables is well formed |
| Merge.OuterJoinCombines | UpdateSaveStatus.py:168 | A left row and a right row with the same key meet in one merged row holding the left cells on the left columns and the right cells on the right ones |
| Merge.OuterJoinRowKinds | UpdateSaveStatus.py:168 | Every merged row is a left row joined with a right row of the same key, a left row no right row matches (empty on the right), or a right row no left row matches (empty on the left); a matched row never also comes out alone |

## Left out

- `Tables.CastToInt`: `int()` also reads decimal digits of other scripts (Arabic-Indic, full-width and the like); the model reads only the ASCII digits 0-9 and reports ValueError for the others. Whitespace and underscores are read as Python does.
- The Qt dialogs, progress bars, threads and signals are not modelled. They hold no reconciliation logic.
- Network access is left out:
  - the page loop of `run_download` (UpdateStatus.py:260-350);
  - `StatusType.is_in_api`, so `set_in_api()` without a value is not modelled;
  - `recup_current_version`;
  - the HTTP half of `GetSourcesFromYear`;
  - the fetch of the version list in `get_download_url`.

  The model takes their results as parameters.
- Files are passed in as values:
  - GeoPackage reading and writing (`gpd.read_file`, `to_file`, `save_to_gpkg_via_qgs`) become
    `Folder` maps and `Option<Table>` layers;
  - an unreadable file or layer is one `IOError`;
  - `os.path.isfile` and `list_layers` become map membership.
- The CSV export block of `MakeStatusArray` (UpdateStatus.py:205-216) is not modelled. Neither
  are `SaveNewSources`, `download_zip`, `on_DownloadComplete` and utils.py: they only write files.
- Logging and debug output are not modelled.
- `SourceCheck.MentionsAny`: `str.lower` is an abstract function parameter; Unicode case folding is not modelled.
- Pandas' dtype system is reduced to three cell kinds: string, integer and missing.
  - `astype(str)` of a missing value gives "nan".
  - Floats, and the dtype check `pd.merge` makes on its keys, are not modelled.
  - `SaveStatus.RegionalSave` therefore does not reproduce a failure caused by a CD_REF
    dtype mismatch, since the regional save never casts CD_REF.
- `LocalVersion.ColumnMin`: a VERSION cell that is not an integer gives TypeError, where numpy
  would compare strings or return nan.
- `Merge.OuterJoinRowKinds` says which rows the merge holds: joined pairs, and unmatched rows padded. It does not count them; the model emits one row per matching pair, as pandas does, but no lemma states the row count.
- `Grouping.GroupJoin` and `Merge.OuterJoin` give rows in order of first appearance, where pandas
  sorts the group keys and the outer-join keys. The set of rows and their cells are modelled;
  their order is not.
- `StatusExtractor.AnnexFragment`: the regular expression is modelled as "the longest token that
  ends the status name". A trailing newline is allowed before `$`. Other regex engine details are
  not modelled.
- `TaxRef.KeepShortestNames`: a vernacular name none of whose rows has a valid name gives
  ValueError. Pandas' `idxmin` over missing values depends on the pandas version; that behaviour
  is not modelled. A valid name that is not a string counts as missing.
- `TaxRef.VernacularNames`: group keys are sorted with integers before strings and strings by
  code point, the order pandas falls back to for mixed keys; a column of one type is sorted as
  Python sorts it. Missing names are no keys, as `groupby` drops NaN keys by default.
- `StatusTypes.GetStatusTypesFromIds`: status types are values, so the result holds copies of
  the catalogue entries. In Python the list shares the module's `StatusType` objects, and a later
  `set_in_api` on one of them is seen through `STATUS_TYPES`; that aliasing is not modelled.
- `StatusExtractor.FilterByKeyword`: for a cell that is neither missing nor a string (an integer),
  `split` raises in Python; the model reports TypeError.
