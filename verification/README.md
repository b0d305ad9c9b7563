# Pivot indicators, modelled in Dafny

This project models the pure logic of the EURITO "Pivot" indicator pipeline.
That logic sits between data retrieval (databases, web APIs, topic models)
and file output. It covers five areas:

- **Indicator files** (`IndicatorUtils`, with `Frames` and `Tables`).
  - Geography metadata for a region code: an `iso_` country key, or a NUTS
    code whose level is its length minus one.
  - Turning flattened indicator leaves into rows filed per
    `dataset/topic/filename` path, skipping null and zero values.
  - Sorting each table and dropping incomplete rows.
  - Inclusive day counting.
  - `safe_divide`.
- **Activity indicators** (`ThematicIndicators`).
  - Window-restricted, normalised per-topic sums over a label matrix whose
    rows are aligned with the objects.
  - The covid-topic rule and the covid mask.
  - Relative activity and over-representation.
  - Optional funding weights.
  - Thematic diversity, with Shannon entropy left as a parameter.
  - The per-geography and per-dataset collection of all of these.
- **Geography** (`NutsUtils`, `GeoIndex`, `CoreUtils`, `NihTopics`,
  `ArxivTopics`).
  - ISO-to-NUTS country codes and the NUTS info lookup.
  - The reverse index from region code to the set of ids located there.
  - The geo-split generators, which yield row masks (or filtered article
    lists) aligned with the object list.
- **Topic filtering** (`TopicFilter`). Topic names built from the top words
  of a topic. Removal of topics that are too prevalent or whose name has at
  most two words.
- **CORDIS and text helpers** (`CordisApi`, `TextRecords`).
  - `camel_to_snake`, which inserts spaces (not underscores) and lowers the
    result.
  - Paging through the search API until a short page, and the rcn lists per
    crisis code.
  - Per-project crisis scores.
  - `join_text`, and the rule that keeps a project unless both of its texts
    are missing.

Modelling conventions:

- Dates are integer day numbers.
- Pandas series are `seq<real>` aligned with the topic names. Label matrices
  are `seq<seq<real>>` with one row per object.
- Python dicts that keep insertion order are association lists
  (`OrderedDicts`). A repeated key keeps its last value.
- Python exceptions are `Result` errors named after the exception.
- Everything external is a function parameter:
  - the database query results;
  - the NUTS point resolver `find`;
  - the search-API page function;
  - the NLI probability scorer;
  - the indicator description;
  - the country-name lookup;
  - Shannon entropy.

The model follows the code where the code and the repository's tests
disagree. `make_ctry_metadata` returns the keys `ctry_code`, `level` and
`name` (indicators/core/indicator_utils.py:52-58). The test of it expects
`nuts_code`, `nuts_level` and `nuts_name`. The model carries the three values
as the fields `code`, `level` and `name` of `CtryMetadata`.

Where the code evidently does something other than what its authors meant,
the model has both versions: the code as written and the corrected
definition. The corrected one is used by the rest of the model. See
"## Findings".

## Model

| member | source | states |
|---|---|---|
| `IndicatorUtils.MakeCtryMetadata` | indicators/core/indicator_utils.py:35-60 | An `iso_` code comes back stripped of its prefix, at level 0, in the by-country file, named by the country lookup. Any other code succeeds exactly when the NUTS lookup holds it, and fails with `KeyError` otherwise. On success its level is its length minus one and its name is the NUTS name. |
| `IndicatorUtils.FilenameMatchesLevel` | indicators/core/indicator_utils.py:42-58 | The file of a NUTS code is `nuts-{level}.csv` for exactly the level its metadata reports. The by-country file names no level. |
| `IndicatorUtils.IsoMetadataExample` | indicators/core/tests/test_indicator_utils.py:54-59 | `iso_FR` gives code `FR`, level 0 and the by-country file. |
| `IndicatorUtils.EntryOf` | indicators/core/indicator_utils.py:78-91 | Corrected version, with the description looked up for the dataset's module. A kept leaf is filed under `dataset/topic/filename` of its metadata. Its row carries the leaf's indicator, value and description, and the metadata's code, level and name, but no filename. It fails exactly when the metadata fails. |
| `IndicatorUtils.FileEntriesSpec` | indicators/core/indicator_utils.py:73-91 | Corrected version, as for `EntryOf`. Traversal succeeds exactly when every leaf that is neither null nor zero has metadata. It then yields one entry per such leaf, in traversal order, and none for the skipped leaves. |
| `IndicatorUtils.GroupByPathSpec` | indicators/core/indicator_utils.py:81-91 | A path is a key exactly when some entry is filed under it. Its rows are exactly that path's entries, in order. Keys are distinct, and no row is lost or duplicated. |
| `IndicatorUtils.PrepareFileData` | indicators/core/indicator_utils.py:63-92 | Corrected version, with the description looked up for the dataset's module. Preparing the file data fails exactly when some kept leaf has no metadata. |
| `IndicatorUtils.FileEntriesAsWrittenSpec` | indicators/core/indicator_utils.py:73-79 | As written, the traversal succeeds, with no entry, exactly when no leaf is kept. Otherwise it fails with `AttributeError`, since the description is asked of the dataset label, a string with no `model_config`. |
| `IndicatorUtils.PrepareFileDataAsWritten` | indicators/core/indicator_utils.py:63-92 | As written, preparing the file data succeeds only when every leaf is null or zero, and then returns no file. Any other leaf makes it fail with `AttributeError`. |
| `IndicatorUtils.AsWrittenDescriptionFails` | indicators/core/indicator_utils.py:78 | One value for `iso_FR`: the corrected version files it, with its description, under `nih/t/by-country.csv`, while the code as written fails with `AttributeError`. |
| `IndicatorUtils.PrepareFileDataSpec` | indicators/core/indicator_utils.py:63-92 | The files hold as many rows as there are non-null, non-zero leaves. Each path holds the rows of its own leaves, in traversal order. |
| `IndicatorUtils.SortAndDrop` | indicators/core/indicator_utils.py:99-103 | A table comes out sorted by the column order, holding no row with a missing value. It is a permutation of the input's complete rows. |
| `IndicatorUtils.SortAndFilterSpec` | indicators/core/indicator_utils.py:95-107 | A path survives exactly when it was an input key whose table has a complete row. Its table is then sorted, complete and a permutation of the input's complete rows. |
| `IndicatorUtils.DaysOfCovidCountsDays` | indicators/core/indicator_utils.py:123-128 | The covid day count is the number of calendar days from the first to the last day of the window, both included. |
| `Frames.SafeDivide` | indicators/core/indicator_utils.py:131-136 | Each entry is the numerator where the denominator is zero, and numerator over denominator elsewhere. |
| `Frames.ReplaceZeros` | indicators/core/indicator_utils.py:135 | The denominator after the in-place rewrite: every zero becomes exactly 1, and every non-zero entry is unchanged. |
| `Frames.ZeroEntryNotCounted` | indicators/two/thematic_indicators.py:37 | A row whose entry is zero leaves a column sum unchanged whether it is selected or not. |
| `Frames.ScaleRows` | indicators/two/thematic_indicators.py:99-100 | Every label in row `i` is multiplied by the weight of object `i`. |
| `Frames.ToDict` | indicators/two/thematic_indicators.py:137 | The keys of the dict built from a series are exactly the series' index labels. |
| `Frames.ToDictLast` | indicators/two/thematic_indicators.py:137 | A label maps to the value at its last position in the series. |
| `Tables.SortRows` | indicators/core/indicator_utils.py:101 | The rows are permuted, not changed, into ascending order of the configured columns. |
| `Tables.RowLeTotalPreorder` | indicators/core/indicator_utils.py:101 | Comparing rows column by column, with missing values last, is a total preorder, so the sort order is well defined. |
| `NutsUtils.IsoToNuts` | indicators/core/nuts_utils.py:35-53 | A code outside the EU list gives `None`. GB gives UK, GR gives EL, and every other EU code gives itself. The function is total. |
| `NutsUtils.IsoToNutsRoundTrip` | indicators/core/nuts_utils.py:47-53 | Mapping an EU code to NUTS and back gives the code again, so no two EU countries share a NUTS code. |
| `NutsUtils.NutsInfoLookup` | indicators/core/nuts_utils.py:21-32 | The lookup has one key per distinct NUTS id among the features, and each entry's code equals its key. |
| `NutsUtils.NutsInfoLookupLast` | indicators/core/nuts_utils.py:28-31 | An id's entry is built from the last feature that carries it. |
| `CoreUtils.GeoSplit` | indicators/core/core_utils.py:23-27 | One mask per lookup entry, in lookup order, each as long as the object list. Mask bit `i` is set exactly when object `i`'s id is listed under the entry's code. |
| `CoreUtils.ObjectGetter` | indicators/core/core_utils.py:5-29 | Objects are requested from the pre-covid start date. Without a split the generator yields exactly the object list, once. With a split it yields the geo-split masks. |
| `CoreUtils.ObjectGetterSlice` | indicators/core/core_utils.py:26 | Selecting the objects by a yielded mask gives exactly the objects whose id the lookup lists under that code. |
| `CoreUtils.FirstYield` | indicators/two/thematic_indicators.py:91 | Taking the first item of the generator fails with `IndexError` exactly when it yields nothing. |
| `GeoIndex.AddIdMembers` | indicators/two/nih_topics.py:53 | Adding an id to a key's set adds it there and changes no other key. |
| `GeoIndex.IndexCountriesMembers` | indicators/two/nih_topics.py:52-53 | After the country loop, an id is under a key exactly when it already was or the key is `iso_` plus that id's country code. |
| `GeoIndex.AddToRegionsMembers` | indicators/two/nih_topics.py:55-57 | Indexing one resolved object adds its id under each of its regions and nowhere else. |
| `GeoIndex.IndexRegionsMembers` | indicators/two/nih_topics.py:54-57 | After the region loop, an id is under a key exactly when it already was or the resolver placed it in that region. |
| `GeoIndex.ReverseIndexMembership` | indicators/two/nih_topics.py:51-58 | An id is under a key exactly when the key is its `iso_` country key or one of its resolved regions. The keys are distinct. |
| `GeoIndex.RegionLinkedFromPairs` | indicators/two/nih_topics.py:48-49 | Building the resolver dict keeps, for a repeated id, the regions of its last row. |
| `GeoIndex.GeoMasks` | indicators/core/core_utils.py:26 | Each mask bit says whether the id at that position is listed under the entry's code. |
| `NihTopics.ResolveEu` | indicators/two/nih_topics.py:48-49 | Only EU projects are resolved, each with the regions of its coordinates. An EU project without coordinates makes the keyword unpacking fail with `TypeError`. |
| `NihTopics.NihGeoLookup` | indicators/two/nih_topics.py:36-58 | The intended index exists exactly when resolution succeeds, and its keys are distinct. |
| `NihTopics.NihGeoLookupMembership` | indicators/two/nih_topics.py:48-57 | Every project, EU or not, is under `iso_` plus its country code. An EU project is also under each region the resolver found for it. Nothing else is indexed. |
| `NihTopics.ResolveEuEmpty` | indicators/two/nih_topics.py:48-49 | Resolution resolves nothing exactly when no project is an EU project. |
| `NihTopics.NihGeoLookupAsWritten` | indicators/two/nih_topics.py:36-58 | The index as written succeeds exactly when no project is an EU project, and then holds only the `iso_` country keys. Otherwise it fails with `TypeError` or `ValueError`. |
| `NihTopics.AsWrittenLookupFailsOnEuProject` | indicators/two/nih_topics.py:54-57 | One EU project in FR10: the intended index lists it under FR10, while the code as written fails with `ValueError`. |
| `NihTopics.GetNihProjects` | indicators/two/nih_topics.py:61-78 | Without a split, the intended generator yields the project list once. With a split, it yields one mask per lookup entry. |
| `NihTopics.GetNihProjectsAsWritten` | indicators/two/nih_topics.py:77-78 | Without a split, the generator as written yields nothing. |
| `NihTopics.AsWrittenGeneratorIsEmpty` | indicators/two/nih_topics.py:77-78 | Downstream, taking the first item fails with `IndexError` on the generator as written. The intended generator gives the project list. |
| `NihTopics.NihSplitMasks` | indicators/two/nih_topics.py:72-76 | In split mode, bit `i` of the mask for a code is set exactly when project `i`'s id is listed under that code. |
| `ArxivTopics.ResolveInstitutes` | indicators/two/arxiv_topics.py:33-34 | Each located institute is paired with the regions of its coordinates, in query order. |
| `ArxivTopics.ArxivGeoLookup` | indicators/two/arxiv_topics.py:17-45 | The intended institute index always exists and its keys are distinct. |
| `ArxivTopics.ArxivGeoLookupMembership` | indicators/two/arxiv_topics.py:33-44 | An institute is under a key exactly when the key is `iso_` plus its country code or a region of its location. |
| `ArxivTopics.ArxivGeoLookupAsWritten` | indicators/two/arxiv_topics.py:36-45 | The index as written succeeds exactly when no institute was located, and then holds only the `iso_` country keys. Otherwise it fails with `TypeError` or `ValueError`. |
| `ArxivTopics.AsWrittenArxivLookupFails` | indicators/two/arxiv_topics.py:41 | One located institute in UKH1 makes the code as written fail, while the intended index lists it there. |
| `ArxivTopics.GetArxivArticles` | indicators/two/arxiv_topics.py:68-86 | Without a split, the generator yields `(articles, None)` once. With a split, it yields one filtered list per lookup entry, in lookup order, tagged with its code. The id tested, `idOf`, is the article's own `id` (line 83). |
| `ArxivTopics.ArxivSplitIsMaskSelection` | indicators/two/arxiv_topics.py:79-84 | The articles yielded for a code are the rows the geo-split mask for that code selects, in their original order. |
| `ArxivTopics.ArxivSplitMembership` | indicators/two/arxiv_topics.py:82-84 | An article is yielded for a code exactly when its id is listed under the code. |
| `TextRecords.Present` | indicators/2.2/nih_topics.py:46 | The filtered arguments are non-empty strings, at most as many as were given. |
| `TextRecords.PresentMembership` | indicators/2.2/nih_topics.py:46 | A string survives the filter exactly when it is non-empty and was given. |
| `TextRecords.JoinTextEmpty` | indicators/2.2/cordis_topics.py:35-36 | The joined text is empty exactly when every argument is `None` or empty. |
| `TextRecords.JoinTextNested` | indicators/2.2/nih_topics.py:38-46 | Joining a joined text with more arguments is joining all arguments at once. |
| `TextRecords.JoinTextSplit` | indicators/2.2/nih_topics.py:46 | When no argument holds a space, splitting the joined text on spaces gives back the present arguments in order. |
| `TextRecords.JoinTextExample` | indicators/core/tests/test_nlp_utils.py:23-25 | `("this", "is", None, "some", None, "text")` joins to `"this is some text"`. |
| `TextRecords.ProjectRecords` | indicators/2.2/cordis_topics.py:30-32 | One record per row with some text, in query order. The record's keys are id, text, title and start date, plus funding in the variant that queries it. |
| `TextRecords.ProjectRecordsMembership` | indicators/2.2/nih_topics.py:32-35 | A record is produced exactly for a row that has a relevance statement or an abstract. Its text joins the two in that order. |
| `TextRecords.EmptyTextIsKept` | indicators/two/nih_topics.py:29-32 | The filter tests for missing texts only: an empty relevance statement with no abstract is kept, with empty text. |
| `TopicFilter.TopicNameWords` | create_topic_df.py:24-26 | For a topic with at least one word, none of which holds an underscore, the name splits on `_` into its first five words, or all of them when there are fewer. |
| `TopicFilter.TopicNamePieces` | create_topic_df.py:24-26 | Whatever the words hold, the name splits on `_` into at least as many pieces as the words it was built from. |
| `TopicFilter.TopicNameShort` | create_topic_df.py:24-27 | A short name always comes from a topic of at most two words. When no word holds an underscore, the converse holds too. |
| `TopicFilter.PostProcessModel` | create_topic_df.py:9-37 | The table has one column per topic, in word-mix order, named after its words. It has one weight per document. A weight matrix of the wrong shape raises `ValueError`. |
| `TopicFilter.Prevalence` | create_topic_df.py:51-54 | Prevalence is a fraction between 0 and 1. It is undefined (NaN) exactly for a table with no documents. |
| `TopicFilter.Rank` | create_topic_df.py:51-54 | Every column gets its own prevalence, in column order. |
| `TopicFilter.MorePrevalentIsPreorder` | create_topic_df.py:55 | Descending prevalence with NaN last is a total preorder. |
| `TopicFilter.FilterTopics` | create_topic_df.py:40-69 | Filtering keeps the documents and keeps the table well shaped. |
| `TopicFilter.InFilteredRanking` | create_topic_df.py:55-65 | A ranked topic is in a filtered part of the ranking exactly when it ranks a column of the table and passes the part's test. |
| `TopicFilter.RemovedMembership` | create_topic_df.py:60-65 | A name is removed exactly when some column of that name is more prevalent than the threshold, or the name is short. |
| `TopicFilter.FilterTopicsKeeps` | create_topic_df.py:67 | The output keeps every document and exactly the columns whose name was not removed, in their original order. |
| `TopicFilter.KeptColumns` | create_topic_df.py:60-67 | A column survives exactly when its name is not short and no column of its name is prevalent. |
| `TopicFilter.RemovedOrder` | create_topic_df.py:55-65 | Both parts of the removed list run in decreasing prevalence. |
| `TopicFilter.PrevalentShortListedTwice` | create_topic_df.py:60-65 | A topic that is both prevalent and short is listed twice among the removed names. |
| `TopicFilter.KeptRankIsClean` | create_topic_df.py:60-67 | No kept column is prevalent or short. |
| `TopicFilter.FilterTopicsIdempotent` | create_topic_df.py:51-67 | Filtering the output again with the same thresholds removes nothing and returns the same table. |
| `TopicFilter.ShortTopicRemoved` | create_topic_df.py:63-67 | A topic named `covid_vaccine` is removed whatever its prevalence. |
| `TopicFilter.CovidVaccineIsShort` | create_topic_df.py:64 | `covid_vaccine` splits into two parts, so it is short. |
| `ThematicIndicators.InWindowSelect` | indicators/two/thematic_indicators.py:28-36 | Restricting by the indexer before testing the window is the same as testing the window before restricting. |
| `ThematicIndicators.CovidNormIsOne` | indicators/two/thematic_indicators.py:34-35 | For the covid window itself the normalisation is exactly one. |
| `ThematicIndicators.ActivityMask` | indicators/two/thematic_indicators.py:28-36 | A row counts exactly when it was created strictly inside the window and, when an indexer is given, is selected by it. |
| `ThematicIndicators.SumActivity` | indicators/two/thematic_indicators.py:14-38 | The activity has one entry per topic. It fails with `ZeroDivisionError` exactly when the window has length zero. |
| `ThematicIndicators.SumActivityValue` | indicators/two/thematic_indicators.py:28-38 | Each topic's activity is the normalisation times the topic's label sum over the counted rows. |
| `ThematicIndicators.RelativeActivity` | indicators/two/thematic_indicators.py:78-85 | Covid-window activity over pre-covid activity, keeping the covid value where the pre-covid one is zero. It fails exactly when a window has length zero. |
| `ThematicIndicators.DiversityMask` | indicators/two/thematic_indicators.py:55-58 | Diversity counts exactly the rows created after the covid start and inside the given mask. |
| `ThematicIndicators.DiversityFrame` | indicators/two/thematic_indicators.py:55-58 | Diversity depends only on the labels of the rows it counts. |
| `ThematicIndicators.DiversityCountsSplit` | indicators/two/thematic_indicators.py:126-127 | The covid and non-covid diversity counts add up to the counts of all rows created after the covid start. |
| `ThematicIndicators.CovidFiltererTerms` | indicators/two/thematic_indicators.py:61-67 | A topic is covid-related exactly when its name contains `covid` or `coronavirus`, case-sensitively. |
| `ThematicIndicators.FirstCovidTopic` | indicators/two/thematic_indicators.py:74 | The chosen topic is the first covid-related one in column order. There is none exactly when no topic is covid-related. |
| `ThematicIndicators.CovidTopicIndexer` | indicators/two/thematic_indicators.py:70-75 | The mask fails with `IndexError` exactly when no topic is covid-related. Otherwise row `i` is flagged exactly when its label in the first covid topic equals one. |
| `ThematicIndicators.ObjectsAndTopics` | indicators/two/thematic_indicators.py:88-101 | Objects and labels are both restricted to the geography. Without weights the labels are unchanged. With weights every label is multiplied by its object's funding, and the row of an object whose funding is NULL is zero. |
| `ThematicIndicators.UnfundedObjectNotCounted` | indicators/two/thematic_indicators.py:99-100 | With weights, an object whose funding is NULL adds nothing to any column sum, and its label never equals 1. |
| `ThematicIndicators.ComputeParts` | indicators/two/thematic_indicators.py:106-134 | The computation fails with `IndexError` when there is no covid topic, and otherwise with `ZeroDivisionError` exactly when a window has length zero. Every series has one entry per topic. |
| `ThematicIndicators.TotalActivityIsRawCount` | indicators/two/thematic_indicators.py:110-119 | Total activity is the raw label sum over the objects created inside the covid window. |
| `ThematicIndicators.Assemble` | indicators/two/thematic_indicators.py:117-137 | The result has exactly the six indicator keys. Diversity is keyed by covid and non-covid projects, and every other indicator is keyed by the topic names. |
| `ThematicIndicators.AssembleAt` | indicators/two/thematic_indicators.py:117-137 | Each indicator's entry for a topic is that topic's value in the matching series. Over-representation is covid over non-covid relative activity, kept as is where the latter is zero. |
| `ThematicIndicators.GenerateIndicators` | indicators/two/thematic_indicators.py:104-137 | The corrected indicators succeed exactly when there is a covid topic and both windows have non-zero length, and then hold the six keys. |
| `ThematicIndicators.GenerateIndicatorsMeaning` | indicators/two/thematic_indicators.py:117-134 | Per topic, total activity is the count inside the covid window. Over-representation is the stored covid over non-covid ratio, kept as is where the latter is zero. |
| `ThematicIndicators.ComputePartsMasks` | indicators/two/thematic_indicators.py:107-128 | The three relative activities are taken over no indexer, over `is_covid` and over `~is_covid`. The two diversities are taken over `is_covid` and over `~is_covid`. |
| `ThematicIndicators.GenerateIndicatorsRelative` | indicators/two/thematic_indicators.py:107-123 | Per topic, `relative_activity`, `relative_activity_covid` and `relative_activity_noncovid` are the relative activity over all objects, over the covid mask of the unweighted labels, and over its complement. |
| `ThematicIndicators.GenerateIndicatorsDiversity` | indicators/two/thematic_indicators.py:107-128 | The covid-related diversity is taken over the covid mask of the unweighted labels, and the non-covid one over its complement. |
| `ThematicIndicators.GenerateIndicatorsAsWritten` | indicators/two/thematic_indicators.py:104-137 | The indicators as written fail and succeed in the same cases, with the same six keys. |
| `ThematicIndicators.AsWrittenStoresOneForZero` | indicators/two/thematic_indicators.py:132-134 | The code as written stores 1 where the intended non-covid relative activity is 0. Every other entry is as intended. |
| `ThematicIndicators.AsWrittenMaskMissesFundedObject` | indicators/two/thematic_indicators.py:99-107 | A covid-labelled object with funding 2 is outside the weighted mask as written, but inside the mask of the unweighted labels. |
| `ThematicIndicators.CollectAll` | indicators/two/thematic_indicators.py:142-145 | The dict comprehension succeeds exactly when every item's computation does, has exactly the items' keys, and otherwise reports one item's error. |
| `ThematicIndicators.CollectAllAt` | indicators/two/thematic_indicators.py:142-145 | A key maps to the value of its last item. |
| `ThematicIndicators.GenerateAt` | indicators/two/thematic_indicators.py:95-96 | A geography mask of the wrong length is rejected with `IndexError`. Otherwise the indicators are generated. |
| `ThematicIndicators.IndicatorsByGeo` | indicators/two/thematic_indicators.py:140-146 | Indicators exist for every split exactly when there is no split or the dataset is computable. They are keyed by region code, and the error is the one `generate_indicators` raises. |
| `ThematicIndicators.IndicatorsByGeoAt` | indicators/two/thematic_indicators.py:142-145 | The entry of a region code is the indicators of its split. |
| `ThematicIndicators.IndicatorKeysMembership` | indicators/two/thematic_indicators.py:156-165 | The keys are every dataset label, plus the funding label of every module that is funded. |
| `ThematicIndicators.CollectModules` | indicators/two/thematic_indicators.py:155-166 | On success the keys are exactly the dataset labels and the funded modules' funding labels. |
| `ThematicIndicators.CollectModulesOk` | indicators/two/thematic_indicators.py:155-166 | The loop fails exactly when one of the computations it runs fails. |
| `ThematicIndicators.FundingLabelDiffers` | indicators/two/thematic_indicators.py:164 | A funding label never equals the dataset label it is made from. |
| `ThematicIndicators.CollectModulesAt` | indicators/two/thematic_indicators.py:155-166 | Unless a later module assigns the same key, a module's label holds its count indicators, and a funded module's funding label holds its funding-weighted ones. |
| `ThematicIndicators.MakeIndicatorsAt` | indicators/two/thematic_indicators.py:149-166 | In the corrected version, unless a later module assigns the same key, a module's label holds `indicators_by_geo` of the module, and its funding label holds the funding-weighted `indicators_by_geo` when its configuration names a funding currency. |
| `ThematicIndicators.MakeIndicators` | indicators/two/thematic_indicators.py:149-166 | The corrected version succeeds exactly when every module is computable, and adds funding indicators for the modules whose configuration names a funding currency. |
| `ThematicIndicators.MakeIndicatorsAsWritten` | indicators/two/thematic_indicators.py:161 | As written, funding indicators appear only for modules whose label itself contains `funding_currency`. |
| `ThematicIndicators.AsWrittenDropsFundingIndicators` | indicators/two/thematic_indicators.py:161-165 | For a funded NIH module the code as written produces no `nih-funding` key, while the corrected version does. |
| `CordisApi.CamelToSnake` | indicators/2.1/eu_covid_projects.py:37-47 | The output has no upper-case letter. |
| `CordisApi.CamelToSnakeOnlyInsertsSpaces` | indicators/two/cordis_topics.py:44-45 | Deleting all spaces from the output gives the lower-cased input with its spaces deleted. |
| `CordisApi.SplitWordsOnlySpaces` | indicators/2.1/eu_covid_projects.py:46 | The first substitution only inserts spaces. |
| `CordisApi.SplitCapitalsOnlySpaces` | indicators/2.1/eu_covid_projects.py:47 | The second substitution only inserts spaces. |
| `CordisApi.CamelToSnakeOfTwoWords` | indicators/two/cordis_topics.py:44-45 | A lower-case word followed by a capitalised lower-case word becomes the two words, lowered and separated by one space. |
| `CordisApi.CrisisCodeKeys` | indicators/2.1/eu_covid_projects.py:30 | The three crisis codes become `crisis recovery`, `crisis response` and `crisis preparedness`. |
| `CordisApi.StopsAtUnique` | indicators/two/cordis_topics.py:83-84 | Paging can end at one page only, the first short one. |
| `CordisApi.GetProjectsByCode` | indicators/2.1/eu_covid_projects.py:68-88 | Pages are requested from 0 upwards, one at a time. The result is the in-order concatenation of the pages up to and including the first short one. Every earlier page is full. If no short page comes within the request bound, the error says so. |
| `CordisApi.CollectedPages` | indicators/two/cordis_topics.py:77-86 | Each requested page appears, unchanged, at its position in the concatenation. |
| `CordisApi.Rcns` | indicators/two/cordis_topics.py:99-100 | The rcn list has one entry per project, in project order. |
| `CordisApi.GetRcnsByCode` | indicators/2.1/eu_covid_projects.py:91-102 | The rcns are those of the projects paged in for the code, up to the first short page. |
| `CordisApi.GetRcnsByCodes` | indicators/two/cordis_topics.py:113-114 | The keys are exactly the given codes, in order, each with its own paged rcns. |
| `CordisApi.GetCrisisRcns` | indicators/2.1/eu_covid_projects.py:106-117 | The keys are exactly the three crisis codes, each with its paged rcns. |
| `CordisApi.ScoreKeysAreSpacedCodes` | indicators/2.1/eu_covid_projects.py:255-256 | The score keys are `camel_to_snake` of each crisis code, in order. |
| `CordisApi.ScoresFor` | indicators/2.1/eu_covid_projects.py:255-259 | There is one score per key, in key order. |
| `CordisApi.ScoresForGet` | indicators/2.1/eu_covid_projects.py:257-259 | Each key's score is the probability of the hypothesis `covid ` plus the key. |
| `CordisApi.ScoresKeys` | indicators/2.1/eu_covid_projects.py:254-259 | Every project gets exactly the three crisis keys, each scored against `covid ` plus the key. |
| `CordisApi.LabelCordisProjects` | indicators/2.1/eu_covid_projects.py:243-263 | Every returned project carries its scores. In test mode with more than `test_limit` projects, exactly the first `test_limit` are returned. |

## Left out

- Database queries (`session.query`, `get_mysql_engine`) are not modelled. Their results are input sequences.
- HTTP, retries and caching (`hit_api`, `persistent_get`, `requests_cache`) are not modelled. One page of results is the function `Pager`.
- `lru_cache` is not modelled. Object identity of cached results is not behaviour.
- The NLI scorer, spaCy, translation and the topic-model fitting are external calls. The scorer is the parameter `prob`, and the topic model's word mix and weight matrix are inputs.
- `indicators/core/nlp_utils.py` is not part of this model. The `join_text` that `two/nih_topics.py` imports from it is taken to be the one in `2.2/nih_topics.py`.
- Shannon entropy uses floating-point logarithms, so it is the uninterpreted parameter `shannon`.
- Floating point in general: ratios and means are exact reals. NaN is modelled as the prevalence of a table without documents. A NULL funding is modelled as a zero weight. In pandas it becomes NaN, but every later use of the weighted labels treats NaN as it treats zero: `sum` skips it and `== 1` rejects it.
- `ThematicIndicators.ObjectsAndTopics`: a funding column that is NULL for every object would not be numeric in pandas, and multiplying by it could raise instead. The model weighs every such row by zero.
- Date parsing (`pd.to_datetime`) is not modelled. Dates are day numbers.
- The NUTS point-in-polygon lookup (`nf.find`) is the parameter `find`.
- `save_and_upload`, the YAML configuration, `flatten`, `get_geo_lookup`, `parse_clean_topics` and the formatting inside `make_indicator_description` are not part of this model. `flatten` is taken as the sequence of leaves it produces. In the corrected version, the description of an indicator in a dataset is the parameter `describe`. As written, the call fails before any formatting (see "## Findings").
- `ThematicIndicators.SumActivity`: the `sort_values()` at line 37 is not modelled. It only reorders the series before it becomes a dict, and the dict's contents do not depend on that order.
- `TopicFilter.Sorted`: pandas' default sort is not stable. The model breaks prevalence ties in column order, so the order of tied names in the removed list is one possible order.
- `CordisApi.GetProjectsByCode`: the source loops for as long as the API returns full pages. The model stops after `fuel` requests with `PagingNotFinished`, and states nothing about what the unbounded loop would do after that.
- `CordisApi.CamelToSnake`: letters are ASCII only. Lower-casing and the regular expressions' character classes are not modelled for other scripts.
- `NihTopics.ResolveEu`: coordinates are either present and well formed or missing. Malformed coordinates, which would make `nf.find` raise, are not modelled.
- Pandas index alignment between series with different indexes is not modelled. All series of one geography share the topic order.

## Findings

| source | as written | input that shows it | evidently intended | confidence | as-written member | corrected member |
|---|---|---|---|---|---|---|
| indicators/core/indicator_utils.py:135 | `safe_divide` sets the zeros of its denominator to 1 in place. At indicators/two/thematic_indicators.py:132-134 that denominator is the stored `relative_activity_noncovid`, so its zeros are saved as 1. | Any topic whose non-covid relative activity is 0. `AsWrittenStoresOneForZero` shows the stored 1. | The stored series is left as computed. Only the division treats zero as one. | not executed | `ThematicIndicators.GenerateIndicatorsAsWritten` | `ThematicIndicators.GenerateIndicators` |
| indicators/core/indicator_utils.py:78 | `make_indicator_description(indc_name, ds_name)` passes the dataset label, a string, where line 30 reads `topic_module.model_config`. | One non-zero value for `iso_FR` in dataset `nih`. `AsWrittenDescriptionFails` shows `AttributeError`. | Pass the dataset's module, whose configuration names the entity type. | not executed | `IndicatorUtils.PrepareFileDataAsWritten` | `IndicatorUtils.PrepareFileData` |
| indicators/two/thematic_indicators.py:107 | The covid mask is computed from the labels after funding weighting (line 100), testing `== 1` (line 75). | One covid-labelled object with funding 2.0, whose weighted label is 2.0. `AsWrittenMaskMissesFundedObject` shows it drops out of the mask. | The mask is read from the unweighted labels, so weighting does not change which objects are covid-related. | not executed | `ThematicIndicators.AsWrittenMaskMissesFundedObject` | `ThematicIndicators.GenerateIndicators` |
| indicators/two/nih_topics.py:54 | `for id, nuts_info in nuts_lookup.values()` unpacks each region list as a pair. | One EU project whose point lies in FR10. `AsWrittenLookupFailsOnEuProject` shows `ValueError`. | Iterate `nuts_lookup.items()`, indexing each project under its regions. | not executed | `NihTopics.NihGeoLookupAsWritten` | `NihTopics.NihGeoLookup` |
| indicators/two/arxiv_topics.py:41 | The same `.values()` unpacking, for institutes. | One located institute in UKH1. `AsWrittenArxivLookupFails` shows the failure. | Iterate `nuts_lookup.items()`. | not executed | `ArxivTopics.ArxivGeoLookupAsWritten` | `ArxivTopics.ArxivGeoLookup` |
| indicators/two/nih_topics.py:77-78 | `return projects` inside a generator ends it without yielding. | `geo_split=False`. `AsWrittenGeneratorIsEmpty` shows that `list(...)[0]` raises `IndexError`. | `yield projects`, as in `object_getter`. | not executed | `NihTopics.GetNihProjectsAsWritten` | `NihTopics.GetNihProjects` |
| indicators/two/thematic_indicators.py:161 | Funding indicators are computed only when the string `dataset_label` contains `funding_currency`. | The NIH module, labelled `nih`, whose configuration has a funding currency. `AsWrittenDropsFundingIndicators` shows no `nih-funding` key. | Test for a `funding_currency` entry in the module's configuration. | not executed | `ThematicIndicators.MakeIndicatorsAsWritten` | `ThematicIndicators.MakeIndicators` |
