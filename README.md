# CTAT-Splicing core, modelled in Dafny

CTAT-Splicing finds introns in RNA-seq alignments and tells cancer introns from normal ones.
Every intron is named by one canonical key, `chrom:lend-rend`: 1-based, naming the first and
the last intronic base. The scripts modelled here do the following:

- Read the key off the gaps between aligned blocks.
- Classify it by its splice dinucleotides.
- Label it known or cryptic.
- Attribute it to genes by exon overlap.
- Aggregate it across a cohort of TCGA tumor and GTEx normal samples.

Through the database they also produce:

- per-sample totals;
- de-duplicated intron features;
- per-occurrence rows;
- normalized counts;
- per-group usage fractions;
- tumor-versus-normal enrichment ratios;
- the annotation files.

Around the cohort data sit a few helper steps: a chunker of the feature list, a
total-reads filter, and a coordinate converter between genome assemblies.

The model has one module per script. Each module's doc comment names its script.

- **Shared modules.**
  - IntronKeys: the key format.
  - ReadJunctions: gaps of aligned blocks.
  - BulkLoadRows: the junction table both bulk-load preppers read.
  - Census: the sample census.
  - SampleTypeLists: the `type:count:pct` lists.
  - Text, Sorting, Seqs, Wrappers: Python's string operations, `sorted`/`order by`,
    sequence facts, and Option/Result.
- **Loops.** Where a script builds a dict, set or list step by step, the model has a method
  with a loop. That method is proved equal to a specification function. The properties the
  script promises are then proved about that function as lemmas.
- **Pure parts.** Expression-only parts are functions.
- **Bugs.** Where a script does something its authors evidently did not intend (see Findings), its run takes a parameter choosing the behaviour as written or the corrected one: UsageStats.ZeroTest for the zero test of the usage statistics, SqlGeneration.Version for the generated statements.
- **Errors.** An exception the script would raise, an assertion it would fail, or a tuple that
  does not unpack is a `Failure` of the Result type.
- **Outside inputs.** Files, BAM reads, the genome, SQL query results and the lift-over are
  values passed in:
  - file lines are the strings the file iterator yields;
  - a query result is the sequence of its rows;
  - pysam's `fetch` and pyliftover's `convert_coordinate` are function parameters;
  - float formatting (`{:.4f}`, `{:.2f}`, `{:.4}`) is a `real -> string` parameter.

## Model

| member | source | states |
|---|---|---|
| SpliceSites.DinucsAreIntronEnds | annotate_introns.py:99-100 | the left dinucleotide is the bases at 1-based positions lend and lend+1, the right one those at rend-1 and rend |
| SpliceSites.SpliceFlagOk | annotate_introns.py:102-104 | the flag is OK exactly when (left, right) is one of the six accepted pairs of lines 19-21, otherwise NON, whatever the dinucleotides' lengths |
| SpliceSites.CatalogEntriesCharacterized | annotate_introns.py:174-179 | an intron is in the catalog iff some line names it in column 0; its entry is columns 2 onward of the last such line |
| SpliceSites.GetIntronDb | annotate_introns.py:164-181 | the loop builds exactly the catalog of the lines after the header; an empty file or a header not starting `intron\tgenes` is an error |
| SpliceSites.CataloguedAnnotation | annotate_introns.py:97 | a key that the catalog file names is labelled with columns 2 onward of the last line naming it, joined by tabs |
| SpliceSites.UncataloguedIsCryptic | annotate_introns.py:97 | an intron no catalog line names is labelled Cryptic |
| SpliceSites.MatchIntronLine | annotate_introns.py:151-156 | an accepted line starts with the chromosome, which starts with `chr`, has more characters and no ':' |
| SpliceSites.MatchIntronLineOfKey | annotate_introns.py:151-156 | a line made of an intron key and a whitespace character is accepted, and its chromosome and token are that key's |
| SpliceSites.MatchIntronLineNeedsChr | annotate_introns.py:151-153 | a line not starting with `chr` is rejected |
| AnnotateIntrons.CountEventsWellFormed | annotate_introns.py:63 | the nested counter's key orders list each key of their dicts exactly once |
| AnnotateIntrons.CountEventsCounts | annotate_introns.py:139 | a (chromosome, key) pair is counted iff some event names it, and its count is the number of such events |
| AnnotateIntrons.CountEventsChroms | annotate_introns.py:139 | a chromosome has a counter iff some event is on it |
| AnnotateIntrons.IntronEventsAt | annotate_introns.py:133-137 | the i-th event of a read is the key of its i-th intron with 1 added to the 0-based start |
| AnnotateIntrons.SkippedReadsAddNothing | annotate_introns.py:123-127 | a read with mapping quality below 60 or a secondary alignment adds no event |
| AnnotateIntrons.CountReadIntrons | annotate_introns.py:133-139 | counting a read's introns gives the counter of the events so far followed by that read's events |
| AnnotateIntrons.EvaluateIntronsFromBam | annotate_introns.py:117-142 | the counter is the count of the events of all kept reads, in order |
| AnnotateIntrons.FileEventsFailure | annotate_introns.py:150-153 | reading a text file fails iff some line does not match the intron pattern; otherwise there is one event per line |
| AnnotateIntrons.CaptureIntronsFromFile | annotate_introns.py:147-160 | the loop fails exactly when some line does not match, and otherwise returns the count of the lines' tokens |
| AnnotateIntrons.RowsFor | annotate_introns.py:87-113 | one row per key, in the given order, carrying that key and its count |
| AnnotateIntrons.ChromRowsSorted | annotate_introns.py:87 | a chromosome's rows list each of its introns once, with its count, in strictly increasing string order |
| AnnotateIntrons.MainChroms | annotate_introns.py:80-83 | the reported chromosomes are exactly the counted ones without '_' |
| AnnotateIntrons.ReportChroms | annotate_introns.py:80-85 | the report has one group per chromosome without '_', in counter order |
| IntronKeys.ParseKeyOfKey | annotate_introns.py:89-93 | a key built from non-negative coordinates and a chromosome without ':' splits back into that chromosome and those coordinates |
| IntronKeys.ParseKeyChrom | annotate_introns.py:89 | the chromosome taken from a key holds no ':' |
| IntronKeys.KeyInjective | annotate_introns.py:137 | distinct junctions get distinct keys |
| ExonOverlap.ExonOf | annotate_introns.py:190-197 | an accepted exon line gives a non-empty half-open interval `[lend, rend+1)` and a gene name without double quotes |
| ExonOverlap.ExonTreeOfFails | annotate_introns.py:188-197 | loading the exons fails iff some line is bad |
| ExonOverlap.ExonTreeOfContents | annotate_introns.py:186-199 | an exon is on a chromosome's tree iff some line gives that exon on that chromosome |
| ExonOverlap.GetExonItree | annotate_introns.py:184-199 | the loop builds exactly the trees of the lines, or the first line's error |
| ExonOverlap.QueryCharacterized | annotate_introns.py:214-215 | a gene is found in a window iff the window is non-empty and an exon of that gene overlaps it (half-open) |
| ExonOverlap.GetOverlappingGene | annotate_introns.py:204-222 | the search returns the genes of the first radius that finds any, else {"NA"}; never an empty set |
| ExonOverlap.QueryGrows | annotate_introns.py:211-214 | a wider window finds every gene a narrower one finds |
| ExonOverlap.NearestIsFirstHit | annotate_introns.py:213-218 | the result is {"NA"} with no radius finding anything, or the genes of a radius at which all smaller radii found nothing |
| ExonOverlap.NearestGenesWithinWidest | annotate_introns.py:217-222 | nothing within 10000 bases gives exactly {"NA"}; otherwise the genes found all lie within the widest window |
| ExonOverlap.OverlapAtZero | annotate_introns.py:213-218 | an exon overlapping the intron itself settles the result at radius 0 |
| OccurrenceCapture.GeneIdOf | util/intron_occurrence_capture.py:161-163 | an extracted gene id is non-empty and holds no double quote |
| OccurrenceCapture.GeneIdOfAttribute | util/intron_occurrence_capture.py:161-163 | an attribute column opening with `gene_id "<id>"` yields that id |
| OccurrenceCapture.AddGeneEffect | util/intron_occurrence_capture.py:170-171 | adding a gene under a token lists it there, keeps every set non-empty and repeat-free, and changes no other token |
| OccurrenceCapture.BoundsOfFailure | util/intron_occurrence_capture.py:155-165 | building the index fails iff some line has fewer than 9 fields, a non-integer coordinate or no gene id |
| OccurrenceCapture.BoundsOfCharacterized | util/intron_occurrence_capture.py:167-171 | a gene is listed under a token iff some annotation line of that gene has `chr:(start-1)` or `chr:(end+1)` equal to the token |
| OccurrenceCapture.PopulateIntronBounds | util/intron_occurrence_capture.py:145-174 | the loop builds exactly the index of the lines, or stops at the first bad line |
| OccurrenceCapture.SampleNameOfPath | util/intron_occurrence_capture.py:133 | for `dir/NAME.SJ.out.tab.gz` the sample name is NAME |
| OccurrenceCapture.GenesLabelSame | util/intron_occurrence_capture.py:126-127 | when both ends have the same genes, the label is their comma-join: it splits back into them, and its set of genes is the set at either end whatever the join order |
| OccurrenceCapture.GenesLabelDifferent | util/intron_occurrence_capture.py:128-129 | when the ends differ, the label is `join(A) + "--" + join(B)`, and both sides can be read back |
| OccurrenceCapture.MapRowWritten | util/intron_occurrence_capture.py:112-135 | a row is written iff both `chr:start` and `chr:end` are index tokens, as class, sample, the genes label of the two ends' gene lists and every original field unchanged |
| OccurrenceCapture.FlankedIntronWritten | util/intron_occurrence_capture.py:118-135 | a junction starting right after one annotated exon and ending right before another is written, and each exon's gene is among its end's genes |
| OccurrenceCapture.MappedRowsBound | util/intron_occurrence_capture.py:104-135 | at most one record per splice-table row |
| OccurrenceCapture.MapIntrons | util/intron_occurrence_capture.py:70-141 | the loop writes exactly the records of the rows, in order; the index is only read |
| BulkLoadRows.ParseJunctionRow | sqlite_db_build/intron_sqlite3_bulk_load_prepper.py:64-71 | an accepted row has exactly 12 tab fields; any other count or a non-integer mapping count fails |
| BulkLoadRows.ParseJunctionRowOfLine | sqlite_db_build/intron_sqlite3_bulk_load_prepper.py:64-71 | a row written as one tab-separated line is read back as the same row |
| BulkLoadRows.FeatureRecords | sqlite_db_build/intron_sqlite3_bulk_load_prepper.py:112-123 | every feature record has the 8 columns key, chromosome, start, end, strand, motif, annotation status, genes |
| BulkLoadRows.FeatureRecordsFirstSeen | sqlite_db_build/intron_sqlite3_bulk_load_prepper.py:112-123 | the feature records are keyed by the distinct keys of the rows in first-seen order, so each key is written exactly once |
| BulkLoadRows.FeatureRecordsFirstOccurrence | sqlite_db_build/intron_sqlite3_bulk_load_prepper.py:113-122 | each written feature record is that of the first row with its key |
| BulkLoadRows.FirstRowOfIsFirst | sqlite_db_build/intron_sqlite3_bulk_load_prepper.py:75-102 | the row that fixes a sample's record is that sample's first row |
| BulkLoadRows.AbsentSums | sqlite_db_build/intron_sqlite3_bulk_load_prepper.py:99-101 | a sample without rows has zero totals |
| BulkLoadRows.AllMappingsIsSum | sqlite_db_build/intron_sqlite3_bulk_load_prepper.py:136-142 | the occurrence line's all_mappings column reads back as unique + multi |
| SqliteBulkLoad.TissueEntriesPairs | sqlite_db_build/intron_sqlite3_bulk_load_prepper.py:172-175 | every line of a successful tissue-map parse unpacks into exactly two fields |
| SqliteBulkLoad.TissueEntriesKeys | sqlite_db_build/intron_sqlite3_bulk_load_prepper.py:172-175 | a sample has a tissue iff some line names it |
| SqliteBulkLoad.TissueEntriesLastWins | sqlite_db_build/intron_sqlite3_bulk_load_prepper.py:175 | a sample's tissue is the one on the last line naming it |
| SqliteBulkLoad.TissueEntriesFailure | sqlite_db_build/intron_sqlite3_bulk_load_prepper.py:174 | a line that does not unpack into two fields fails the parse |
| SqliteBulkLoad.ParseGtexSampleTypes | sqlite_db_build/intron_sqlite3_bulk_load_prepper.py:165-177 | the loop skips the header and builds exactly the tissue map, or fails at the first bad line |
| SqliteBulkLoad.TcgaSample | sqlite_db_build/intron_sqlite3_bulk_load_prepper.py:78-86 | a TCGA sample is N iff its name ends in "-NT" (else T), and its type is the name up to the first '-' |
| SqliteBulkLoad.OtherSamples | sqlite_db_build/intron_sqlite3_bulk_load_prepper.py:88-94 | a non-TCGA sample is accepted iff it is GTEx and in the tissue map, and is then N with its tissue as type; any other class fails |
| SqliteBulkLoad.LoadFilesAccounts | sqlite_db_build/intron_sqlite3_bulk_load_prepper.py:53-142 | after a successful run: one record per sample in first-seen order, with the sums of all its rows, total = unique + multi, and the class, type and flag of its first row; each feature key once; one occurrence line per data row |
| SqliteBulkLoad.IngestLinesAccounts | sqlite_db_build/intron_sqlite3_bulk_load_prepper.py:58-142 | ingesting one file's data lines keeps that account, extended by the rows of those lines |
| SqliteBulkLoad.LaterRowsOnlyAdd | sqlite_db_build/intron_sqlite3_bulk_load_prepper.py:103-108 | a row of a sample already seen never fails, and only adds its counts to that sample's totals |
| SqliteBulkLoad.EmptyFileFails | sqlite_db_build/intron_sqlite3_bulk_load_prepper.py:56 | an input file without a header line fails the run |
| SqliteBulkLoad.BadRowFails | sqlite_db_build/intron_sqlite3_bulk_load_prepper.py:65-71 | a data row that does not parse fails the run |
| SqliteBulkLoad.AddRow | sqlite_db_build/intron_sqlite3_bulk_load_prepper.py:64-142 | one iteration of the row loop computes exactly the next state, or the classification error |
| SqliteBulkLoad.BulkLoadPrepper | sqlite_db_build/intron_sqlite3_bulk_load_prepper.py:53-144 | the nested loops compute exactly the state of the whole ingest, or its first error |
| SqliteBulkLoad.WriteSamples | sqlite_db_build/intron_sqlite3_bulk_load_prepper.py:148-155 | one samples-table line per sample, in first-seen order |
| SqliteBulkLoad.SampleLineCounts | sqlite_db_build/intron_sqlite3_bulk_load_prepper.py:149-155 | the count columns read back as the totals, the last being the sum of the other two |
| SqliteBulkLoad.SampleTableTotals | sqlite_db_build/intron_sqlite3_bulk_load_prepper.py:106-108 | every listed sample is listed once, and its record holds the sums of its rows' counts with total = unique + multi |
| SqliteBulkLoad.TissueEntries | sqlite_db_build/intron_sqlite3_bulk_load_prepper.py:172-175 | the tissue map fails only with the unpacking error |
| SqliteBulkLoad.IngestBadRow | sqlite_db_build/intron_sqlite3_bulk_load_prepper.py:64-71 | the first data row that does not parse ends the file with that row's error |
| SqliteBulkLoad.IngestPrefixFailure | sqlite_db_build/intron_sqlite3_bulk_load_prepper.py:58-142 | once a row fails, later rows change nothing |
| SqliteBulkLoad.Occurrences | sqlite_db_build/intron_sqlite3_bulk_load_prepper.py:136-142 | one occurrence line per row, in order |
| BulkLoad.IngestLinesSucceeds | intron_sqlite3_bulk_load_prepper.py:56-120 | ingesting a file's data lines succeeds iff every line unpacks into 12 fields with integer counts; no class name is refused |
| BulkLoad.LoadFilesSucceeds | intron_sqlite3_bulk_load_prepper.py:51-120 | a run fails exactly when some file lacks a header line or some data line does not parse |
| BulkLoad.LoadFilesAccounts | intron_sqlite3_bulk_load_prepper.py:51-120 | after a successful run: one record per sample in first-seen order, with the class of its first row and the sums of its rows, total = unique + multi; each feature key once; one occurrence line per data row |
| BulkLoad.IngestLinesAccounts | intron_sqlite3_bulk_load_prepper.py:56-120 | ingesting one file's data lines keeps that account, extended by the rows of those lines |
| BulkLoad.Occurrences | intron_sqlite3_bulk_load_prepper.py:111-120 | one occurrence line per row, in order: key, sample, unique, multi, their sum, overhang and three "-1" placeholders |
| BulkLoad.AddRow | intron_sqlite3_bulk_load_prepper.py:62-120 | one iteration of the row loop computes exactly the next state |
| BulkLoad.BulkLoadPrepper | intron_sqlite3_bulk_load_prepper.py:51-122 | the nested loops compute exactly the state of the whole ingest, or its first error |
| BulkLoad.WriteSamples | intron_sqlite3_bulk_load_prepper.py:126-132 | one samples-table line per sample, in first-seen order |
| BulkLoad.SampleLineCounts | intron_sqlite3_bulk_load_prepper.py:127-132 | a samples line has six fields with "NA" as type, and its count columns read back as the totals, the last being the sum of the other two |
| BulkLoad.SampleTableTotals | intron_sqlite3_bulk_load_prepper.py:73-83 | every listed sample is listed once, with the class of its first row and the sums of its rows' counts |
| BulkLoad.IngestBadRow | intron_sqlite3_bulk_load_prepper.py:62-69 | the first data row that does not parse ends the file with that row's error |
| Census.GroupInjective | evaluate_intron_usage_stats.py:39 | a `class^type` group name determines its class and type when the class has no '^' |
| Census.CensusOfCharacterized | evaluate_intron_usage_stats.py:37-42 | a group's census is the sum of what each row adds to it (to its own group and to its class's ALL group); a group is present iff some row names it or its class |
| Census.CensusAllIsClassSum | evaluate_intron_usage_stats.py:37-42 | with plain names, `class^ALL` counts every sample of the class and `class^type` the samples of that type |
| Census.BuildCensus | evaluate_intron_usage_stats.py:33-42 | the loop builds exactly the census of the grouped rows |
| UsageStats.MatchesCharacterized | evaluate_intron_usage_stats.py:69-74 | for one occurrence, a joined row is returned iff a sample matches it by name and is not a TCGA normal |
| UsageStats.UsageQueryCharacterized | evaluate_intron_usage_stats.py:69-74 | a row is returned iff it joins a sample with an occurrence of the intron, the sample not being a TCGA normal |
| UsageStats.AddToCounterEffect | evaluate_intron_usage_stats.py:88-92 | `add_to_counter` adds one to exactly that group's category and keeps the groups listed once each |
| UsageStats.CountCategoryEffect | evaluate_intron_usage_stats.py:104-114 | under either zero test, a passing category adds one to the row's own group and one to its class's ALL group, and nothing else |
| UsageStats.CountRowEffect | evaluate_intron_usage_stats.py:101-114 | under either zero test, a row adds, to every group and category, what that row contributes to it |
| UsageStats.TallyOfCounts | evaluate_intron_usage_stats.py:95-114 | under either zero test, a group's count of a category is the number of passing rows of that group or its class; groups are listed once and only groups that counted something exist |
| UsageStats.HitsPositive | evaluate_intron_usage_stats.py:129 | under either zero test, a group has a positive count iff some passing row belongs to it or to its class |
| UsageStats.BaseCountsDominate | evaluate_intron_usage_stats.py:101-114 | under either zero test, a class's ALL group counts every row that any other group of that class counts |
| UsageStats.Normalized | evaluate_intron_usage_stats.py:118-120 | normalization fails exactly on a zero total |
| UsageStats.NormalizedInverse | evaluate_intron_usage_stats.py:118-120 | the normalized value times the sample's total is the count times 10^6 |
| UsageStats.NormLine | evaluate_intron_usage_stats.py:118-124 | a norm line fails iff any of the sample's three totals is zero, and otherwise has 6 fields starting with the tag, the intron and the sample |
| UsageStats.CounterLine | evaluate_intron_usage_stats.py:130-138 | a counter line fails iff the group's census is zero, and otherwise has 8 fields starting with the tag and the group |
| UsageStats.CounterLineFields | evaluate_intron_usage_stats.py:133-136 | each count field is the tally's count (0 when missing), and each fraction times the census gives that count back |
| UsageStats.UsageOutput | evaluate_intron_usage_stats.py:95-138 | under the script's string test or the numeric one, one norm line per queried row followed by one counter line per group that counted something |
| UsageStats.AddToCounterInPlace | evaluate_intron_usage_stats.py:88-92 | the in-place update computes exactly `add_to_counter` |
| UsageStats.CountCategoryInPlace | evaluate_intron_usage_stats.py:104-114 | one category's test and two updates compute exactly the category step; with the string test this is the script's `!= "0"` comparison |
| UsageStats.NormalizeAndTally | evaluate_intron_usage_stats.py:95-124 | with either zero test, the row loop writes exactly the norm lines and, when they succeed, builds exactly the tally of the rows |
| UsageStats.ReportCounters | evaluate_intron_usage_stats.py:128-138 | the report loop writes exactly one counter line per group, in creation order, or fails on a zero census |
| UsageStats.ExamineIntronFeatureUsageStats | evaluate_intron_usage_stats.py:64-138 | the whole per-intron function computes exactly the output of its query's rows, under the zero test it is given (the script's own is the string test) |
| UsageStats.EvaluateIntronUsageStats | evaluate_intron_usage_stats.py:33-56 | with the script's string test or the numeric one, `main` builds the census and concatenates the output of every stripped feature line |
| UsageStats.StringCompareCountsMembers | evaluate_intron_usage_stats.py:101-114 | with the script's string test every category of every row is counted: a group's count is the number of rows of that group plus the rows of that class |
| UsageStats.ZeroRowTallied | evaluate_intron_usage_stats.py:104-114 | a row with no reads at all is still tallied under its group by the script's test, and tallied nowhere by the numeric one |
| UsageStats.ZeroCountPassesAsWritten | evaluate_intron_usage_stats.py:104-106 | as written, a zero unique count passes the "not zero" test although nothing was seen |
| UsageStats.NormLines | evaluate_intron_usage_stats.py:95-124 | the norm lines fail only with a division by zero, and otherwise number one per row |
| UsageStats.CounterLines | evaluate_intron_usage_stats.py:128-138 | the counter lines fail only with a division by zero, and otherwise number one per group |
| UsageStats.NormLinesElementwise | evaluate_intron_usage_stats.py:95-124 | the norm lines fail iff some row's norm line fails, and otherwise line i is the norm line of row i |
| UsageStats.CounterLinesElementwise | evaluate_intron_usage_stats.py:128-138 | the counter lines fail iff some listed group has a zero census, and otherwise line i is the counter line of group i with its counts |
| UsageStats.UsagePrefixFailure | evaluate_intron_usage_stats.py:47-52 | once a feature fails, later features change nothing |
| SqlGeneration.ParseStatsLine | generate_norm_count_updates_and_sample_count_add_queries.py:26-42 | a parsed counter line carries six count fields and a parsed norm line three normalized values |
| SqlGeneration.ParseStatsLineCharacterized | generate_norm_count_updates_and_sample_count_add_queries.py:26-42 | exactly the two tags yield a statement; a tagged line fails exactly on the wrong field count or a group that is not `class^type`; the parsed parts are the line's own fields |
| SqlGeneration.InsertAsWrittenMismatch | generate_norm_count_updates_and_sample_count_add_queries.py:34-38 | the insert as written names six columns but supplies seven values: the multi count under all_count, the multi fraction under all_pct, the all count as a seventh value, and all_pct nowhere |
| SqlGeneration.InsertColumnsMatch | generate_norm_count_updates_and_sample_count_add_queries.py:27-38 | the corrected insert supplies one value per named column, each count field under the column of its own name, and names only columns of the counts table |
| SqlGeneration.UpdateAsWrittenUnknownColumn | generate_norm_count_updates_and_sample_count_add_queries.py:48-49 | the update as written filters on `sample_type`, which intron_occurrence does not have |
| SqlGeneration.UpdateColumnsExist | generate_norm_count_updates_and_sample_count_add_queries.py:41-49 | the corrected update sets and filters only columns that intron_occurrence has |
| SqlGeneration.GenerateAllStep | generate_norm_count_updates_and_sample_count_add_queries.py:15-19 | one more line fails the run exactly when that line fails, and otherwise adds that line's statement if it yields one and nothing if not |
| SqlGeneration.StatementLines | generate_norm_count_updates_and_sample_count_add_queries.py:15-19 | the positions listed are, in increasing order, exactly the lines that yield a statement |
| SqlGeneration.GenerateAllFails | generate_norm_count_updates_and_sample_count_add_queries.py:15-19 | the run fails iff some line fails |
| SqlGeneration.GenerateAllStatements | generate_norm_count_updates_and_sample_count_add_queries.py:15-19 | a successful run prints, in file order, the statement of each line that yields one and nothing else |
| SqlGeneration.SqlRunUsage | generate_norm_count_updates_and_sample_count_add_queries.py:7-11 | the script exits with its usage message exactly when it has no stats-file argument |
| SqlGeneration.GenerateNormCountUpdates | generate_norm_count_updates_and_sample_count_add_queries.py:7-19 | `main` prints exactly the statements of the run, as written or corrected, or stops on the usage error or the first bad line |
| SqlGeneration.CounterLineClean | evaluate_intron_usage_stats.py:134-138 | every field of a counter line is tab-free, and its last field is non-empty and does not end in whitespace |
| SqlGeneration.CounterLineParses | generate_norm_count_updates_and_sample_count_add_queries.py:17-32 | a counter line written by the usage statistics reads back as a counter statement of the same class and type with its six count fields |
| SqlGeneration.NormLineParses | generate_norm_count_updates_and_sample_count_add_queries.py:17-42 | a norm line written by the usage statistics reads back as a norm statement of the same intron and sample with its three values |
| Enrichment.RowsOf | evaluate_intron_tumor_enrichment.py:73-79 | the query returns exactly the table's rows for the intron |
| Enrichment.LastAllCharacterized | evaluate_intron_tumor_enrichment.py:105-109 | the ALL pick of a class is its last ALL row, and there is none iff the class has no ALL row |
| Enrichment.TopAtExtend | evaluate_intron_tumor_enrichment.py:111-117 | a later subtype row displaces the top only with a strictly greater all_pct |
| Enrichment.TopAtFirst | evaluate_intron_tumor_enrichment.py:112 | the first subtype row of a class becomes its top |
| Enrichment.TopOfNone | evaluate_intron_tumor_enrichment.py:111-117 | there is no top pick iff the class has no subtype row |
| Enrichment.TopOfCharacterized | evaluate_intron_tumor_enrichment.py:111-117 | the top pick is the first subtype row of the class with the greatest all_pct |
| Enrichment.PickRows | evaluate_intron_tumor_enrichment.py:92-117 | the row loop fails with an assertion error iff some row is neither TCGA nor GTEx, and otherwise yields the four picks |
| Enrichment.Ratio | evaluate_intron_tumor_enrichment.py:131-133 | the ratio is defined iff both rows exist and no divisor is zero |
| Enrichment.RatioDefined | evaluate_intron_tumor_enrichment.py:23 | with a positive pseudocount and non-negative counts every division is defined |
| Enrichment.RatioComparesRates | evaluate_intron_tumor_enrichment.py:131-133 | the ratio exceeds 1 iff the smoothed tumor rate exceeds the smoothed normal rate, and is 1 when counts and totals agree |
| Enrichment.Enrichment | evaluate_intron_tumor_enrichment.py:124-133 | a comparison exists only when all four picks exist |
| Enrichment.EnrichmentTables | evaluate_intron_tumor_enrichment.py:124-153 | both 2x2 tables split the census totals of the compared groups; the ALL yes counts are the last ALL rows' counts and the top yes counts the top picks' counts; the top comparison is between the picked subtypes |
| Enrichment.EnrichmentComparisons | evaluate_intron_tumor_enrichment.py:124-151 | when all four picks exist the two comparisons are ALL against ALL and top subtype against top subtype, with yes the pick's all_count, no the group's census total minus it, and the odds ratio of the two smoothed rates |
| Enrichment.EnrichmentFails | evaluate_intron_tumor_enrichment.py:124-133 | with a positive pseudocount and non-negative counts, the comparisons fail iff a class has no ALL row or no subtype row |
| Enrichment.PicksDefined | evaluate_intron_tumor_enrichment.py:124-133 | the same failure condition stated on the picks |
| Enrichment.PickedCountsNonNegative | evaluate_intron_tumor_enrichment.py:92-117 | the picks are rows of the query, so they carry its non-negative counts |
| Enrichment.EnrichmentSql | evaluate_intron_tumor_enrichment.py:136-154 | a feature that succeeds prints exactly two statements |
| Enrichment.EnrichmentSqlFails | evaluate_intron_tumor_enrichment.py:103-154 | a feature prints nothing iff a row is of another class or a comparison cannot be made |
| Enrichment.ExamineIntronFeatureForEnrichment | evaluate_intron_tumor_enrichment.py:67-156 | the per-feature function prints exactly the two statements of its query's rows |
| Enrichment.EnrichmentRunLength | evaluate_intron_tumor_enrichment.py:50-55 | a run that succeeds prints two statements per feature |
| Enrichment.RunPrefixFailure | evaluate_intron_tumor_enrichment.py:50-55 | once a feature fails, later features change nothing |
| Enrichment.EnrichFeatures | evaluate_intron_tumor_enrichment.py:50-55 | the feature loop prints exactly the run of the stripped feature lines |
| Enrichment.EvaluateIntronTumorEnrichment | evaluate_intron_tumor_enrichment.py:36-61 | `main` builds the census and then runs every feature |
| SampleTypeLists.GenesOfCharacterized | util/cancer_intron_annotation_file_maker.py:75-77 | `fetchone` yields the genes of the first intron_feature row of the intron, and nothing iff there is no such row |
| SampleTypeLists.ClassFilterCharacterized | util/cancer_intron_annotation_file_maker.py:80-83 | a row is selected iff it is of the intron and the class and not of the excluded sample type |
| SampleTypeLists.ClassRowsSorted | util/cancer_intron_annotation_file_maker.py:80-83 | the selected rows are a permutation of the matching rows, largest all_pct first |
| SampleTypeLists.EntriesElementwise | util/cancer_intron_annotation_file_maker.py:88-91 | one `type:count:pct` entry per row, in the rows' order |
| SampleTypeLists.CollectClassVals | util/cancer_intron_annotation_file_maker.py:85-93 | the loop builds the entries of the rows, or `["NA"]` when there are none |
| SampleTypeLists.EntryReadsBack | util/cancer_intron_annotation_file_maker.py:90 | an entry splits on ':' back into its sample type, count and percentage |
| SampleTypeLists.EntryHasNo | util/cancer_intron_annotation_file_maker.py:90 | an entry holds no ',' or tab that its sample type does not hold |
| SampleTypeLists.ClassListReadsBack | util/cancer_intron_annotation_file_maker.py:107 | a comma-joined class list splits back into its entries (or `["NA"]`) |
| SampleTypeLists.ClassListHasNoTab | util/cancer_intron_annotation_file_maker.py:107 | a class list holds no tab, so the output line keeps its columns |
| SampleTypeLists.ClassRowsInTable | util/cancer_intron_annotation_file_maker.py:86-87 | every listed row is a row of the counts table |
| CancerAnnotation.Without | util/cancer_intron_annotation_file_maker.py:40 | removing a key keeps exactly the other keys, each once |
| CancerAnnotation.ParseNames | util/cancer_intron_annotation_file_maker.py:58-68 | a parsed names dict lists each key once, in insertion order, with exactly the map's keys |
| CancerAnnotation.ParseNamesFails | util/cancer_intron_annotation_file_maker.py:63-66 | parsing fails iff some stripped line does not have exactly two tab-separated fields |
| CancerAnnotation.ParseNamesKeys | util/cancer_intron_annotation_file_maker.py:63-66 | an intron has a name iff some line names it |
| CancerAnnotation.ParseNamesLastWins | util/cancer_intron_annotation_file_maker.py:66 | an intron's name is the one on the last line naming it |
| CancerAnnotation.NamesPrefixFailure | util/cancer_intron_annotation_file_maker.py:63-66 | a bad line ends parsing: later lines change nothing |
| CancerAnnotation.ParseIntronFeatureNames | util/cancer_intron_annotation_file_maker.py:58-68 | the loop builds exactly the parsed names dict |
| CancerAnnotation.AnnotationLine | util/cancer_intron_annotation_file_maker.py:72-107 | an annotation line fails iff the intron is not in intron_feature |
| CancerAnnotation.WriteIntronFeatureAnnotation | util/cancer_intron_annotation_file_maker.py:72-109 | the function writes exactly the intron's annotation line |
| CancerAnnotation.LeftoverPairs | util/cancer_intron_annotation_file_maker.py:50-51 | the leftover pass pairs each remaining key, in order, with its name |
| CancerAnnotation.LeftoverLines | util/cancer_intron_annotation_file_maker.py:50-51 | the leftover pass writes one line per remaining key, the annotation of the key with its name |
| CancerAnnotation.CancerPassKeeps | util/cancer_intron_annotation_file_maker.py:32-42 | through the cancer pass the dict holds exactly the names not yet written; an intron is written with a name only at its first appearance, with the file's name |
| CancerAnnotation.NamesWrittenOnce | util/cancer_intron_annotation_file_maker.py:32-51 | every intron of the names file is written with its name exactly once over both passes |
| CancerAnnotation.NamesWrittenFromDict | util/cancer_intron_annotation_file_maker.py:37-51 | every name written, in either pass, is the names file's name for that intron |
| CancerAnnotation.CancerPassLines | util/cancer_intron_annotation_file_maker.py:32-42 | the cancer pass writes one line per line of the file, the annotation of its field-2 intron with the name taken |
| CancerAnnotation.PassPrefixFailure | util/cancer_intron_annotation_file_maker.py:32-42 | a failing line ends the cancer pass |
| CancerAnnotation.TakeName | util/cancer_intron_annotation_file_maker.py:37-40 | a name in the dict is taken and deleted; otherwise the name is "NA" and the dict is unchanged |
| CancerAnnotation.AnnotateCancerIntrons | util/cancer_intron_annotation_file_maker.py:30-45 | the loop writes exactly the cancer pass's lines and leaves its remaining dict |
| CancerAnnotation.AnnotateLeftover | util/cancer_intron_annotation_file_maker.py:50-51 | the loop writes exactly the leftover pass's lines |
| CancerAnnotation.CancerIntronAnnotation | util/cancer_intron_annotation_file_maker.py:7-54 | `main` computes exactly the whole run: names, header skipped, cancer pass, leftover pass |
| KnownAnnotation.WriteIntronFeatureAnnotation | util/known_intron_annotation_file_maker.py:44-76 | the function writes exactly the intron's four-field line |
| KnownAnnotation.KnownLinesLength | util/known_intron_annotation_file_maker.py:24-34 | the output is the header plus one line per feature row |
| KnownAnnotation.KnownLinesAt | util/known_intron_annotation_file_maker.py:28-34 | line i+1 is the line of the i-th feature row |
| KnownAnnotation.KnownLinesElementwise | util/known_intron_annotation_file_maker.py:24-34 | the output is the header followed by every feature row's line, in query order |
| KnownAnnotation.KnownIntronAnnotation | util/known_intron_annotation_file_maker.py:7-41 | `main` writes exactly the header and the feature lines |
| KnownAnnotation.KnownLineColumns | util/known_intron_annotation_file_maker.py:74 | each line reads back as four columns: intron, genes and the two class lists |
| IgvExtractor.ReadHasCancerIntron | util/igv_read_alignment_extractor.py:57-76 | the answer is true iff some gap of the read, named `chr:end+1-nextstart`, is a cancer intron; a read of fewer than two blocks has none |
| IgvExtractor.CountedIntronsAreGaps | util/igv_read_alignment_extractor.py:67-74 | every intron the counter would count for a read is a gap the gap test looks at |
| IgvExtractor.ShortGapMatches | util/igv_read_alignment_extractor.py:67-74 | a gap shorter than the counter's minimum can still match, so the test is wider than the counter |
| IgvExtractor.RunOf | util/igv_read_alignment_extractor.py:89 | `[^; ]+` matches the longest prefix holding neither ';' nor ' ' |
| IgvExtractor.ViewportOf | util/igv_read_alignment_extractor.py:89-91 | a viewport found is non-empty, holds no ';' or ' ', and follows `viewport=` in the annotation |
| IgvExtractor.ViewportOfCharacterized | util/igv_read_alignment_extractor.py:89-91 | `re.search` semantics: no viewport iff `viewport=` followed by a character other than ';' and ' ' occurs nowhere; otherwise the viewport is the maximal such run after the leftmost occurrence |
| IgvExtractor.ViewportOfFirstMatch | util/igv_read_alignment_extractor.py:89-91 | the leftmost occurrence of the pattern decides the viewport |
| IgvExtractor.ViewportOfTagged | util/igv_read_alignment_extractor.py:89-91 | an annotation `pre` + `viewport=v` + a tail starting with ';', ' ' or empty, with no earlier occurrence of the pattern in `pre` (as in `uniquely_mapped=74;...;gene=EGFR;viewport=v;TCGA=...`), yields v |
| IgvExtractor.ParseBedLineOfRecord | util/igv_read_alignment_extractor.py:87-93 | a six-field bed record whose annotation names no viewport yields nothing; otherwise it yields that viewport with the intron key `chr:(start+1)-end` |
| IgvExtractor.RegionsOfFails | util/igv_read_alignment_extractor.py:86-93 | reading the bed file fails iff some line is malformed |
| IgvExtractor.RegionsOfContents | util/igv_read_alignment_extractor.py:86-93 | an intron is listed under a viewport iff some line names that viewport and that intron |
| IgvExtractor.RegionsOfKeys | util/igv_read_alignment_extractor.py:86-93 | the viewports of the regions map are exactly those named by lines that yield a region |
| IgvExtractor.ParseCancerIntronRegions | util/igv_read_alignment_extractor.py:81-95 | the loop builds exactly the regions map, and its key order is the viewports of the bed lines in order of first appearance, each once, as the dict iterates them |
| IgvExtractor.RegionsPrefixFailure | util/igv_read_alignment_extractor.py:86-93 | a malformed line ends the read: later lines change nothing |
| IgvExtractor.Matching | util/igv_read_alignment_extractor.py:46-50 | the intron output of a region is a sub-multiset of its fetched reads |
| IgvExtractor.MatchingCharacterized | util/igv_read_alignment_extractor.py:46-50 | a read is in a region's intron output iff it was fetched for the region and has one of its cancer introns |
| IgvExtractor.Route | util/igv_read_alignment_extractor.py:36-50 | every read written to the intron output is also written to the gene output |
| IgvExtractor.RouteReads | util/igv_read_alignment_extractor.py:36-50 | the loop writes exactly the routed reads, the intron output within the gene output |
| IgvExtractor.WriteRegionReads | util/igv_read_alignment_extractor.py:46-50 | every fetched read goes to the gene output, and exactly the matching ones to the intron output |
| IgvExtractor.IgvReadAlignmentExtractor | util/igv_read_alignment_extractor.py:25-50 | a bad bed file writes nothing; otherwise the regions are routed in the order in which their viewports first appear in the bed file, each once, and every intron-output read is also a gene-output read |
| IgvExtractor.RoutePrefixFailed | util/igv_read_alignment_extractor.py:42-43 | a malformed region stops the loop: later regions write nothing |
| ReadJunctions.LongEnoughBoundary | Docker/intron_counter.py:37 | a gap of exactly MIN_INTRON_LEN (20) is kept and one base shorter is not |
| ReadJunctions.GapKeysCharacterized | Docker/intron_counter.py:33-38 | every key of a read is the key of some gap that is long enough |
| ReadJunctions.GapKeysComplete | Docker/intron_counter.py:33-38 | every gap that is long enough contributes its key |
| ReadJunctions.ReadIntronsCharacterized | Docker/intron_counter.py:25-38 | a key is among a read's introns iff some gap of the read is long enough and formats to that key |
| ReadJunctions.GapKeysBound | Docker/intron_counter.py:33 | a read contributes at most one intron per gap |
| ReadJunctions.CountKey | Docker/intron_counter.py:39 | one increment keeps every seen key counted by its number of occurrences, keys in first-seen order |
| ReadJunctions.CountRead | Docker/intron_counter.py:25-39 | one read's gaps extend the seen introns by exactly the read's introns and keep the tally exact |
| ReadJunctions.TallyReads | Docker/intron_counter.py:21-39 | after the loop each intron is counted as often as it occurs among all reads' introns, in first-seen order |
| ReadJunctions.ReportCounts | Docker/intron_counter.py:41-42 | one `sample, intron, count` line per key, in the dict's order |
| ReadJunctions.CountIntrons | Docker/intron_counter.py:11-44 | the keys counted are exactly the introns seen, each with its number of occurrences, reported once each in first-seen order |
| ReadJunctions.NameEach | Docker/read_intron_labeler.py:35-41 | one (read name, intron) pair per intron, in order |
| ReadJunctions.LabelRead | Docker/read_intron_labeler.py:24-41 | the lines of one read are its name paired with each of its introns |
| ReadJunctions.LabelReads | Docker/read_intron_labeler.py:23-41 | the loop prints exactly the labels of all reads |
| ReadJunctions.LabelsMatchCountedIntrons | Docker/read_intron_labeler.py:35-41 | the labeller's intron column is exactly the sequence of introns the counter counts |
| ReadJunctions.LabelsConcat | Docker/read_intron_labeler.py:23 | labelling concatenated read streams concatenates their labels |
| PartitionIntronFeatures.PathJoin | partition_intron_features.py:36-39 | a joined path ends with the relative part joined |
| PartitionIntronFeatures.AtBoundary | partition_intron_features.py:31 | at a counter divisible by the width, the files so far hold exactly the lines so far, and the next line opens a new file |
| PartitionIntronFeatures.InsideChunk | partition_intron_features.py:31 | a counter not divisible by the width falls inside the last file opened, and the next line opens none |
| PartitionIntronFeatures.OpenNext | partition_intron_features.py:31-44 | at a boundary a new file named after the counter, in bin file-count div 100, is opened and gets the line |
| PartitionIntronFeatures.ExtendNext | partition_intron_features.py:44 | inside a file the line is appended to the file already open |
| PartitionIntronFeatures.PartitionLines | partition_intron_features.py:25-46 | the loop writes exactly the partition of the list: a ZeroDivisionError for a zero interval on a non-empty list, and otherwise files of `n` lines each |
| PartitionIntronFeatures.ConcatPrefix | partition_intron_features.py:29-46 | the first j files hold exactly the first j·m lines, or all of them |
| PartitionIntronFeatures.PartitionWritesEveryLine | partition_intron_features.py:29-46 | every line is written exactly once, unchanged and in order |
| PartitionIntronFeatures.ChunkHoldsLine | partition_intron_features.py:31-44 | line i falls in file i div m, at position i mod m |
| PartitionIntronFeatures.PartitionPlacesLine | partition_intron_features.py:31-44 | line i is in the file named after line (i div m)·m, in directory `ibin_{(i div m) div 100}` |
| PartitionIntronFeatures.PartitionChunkSizes | partition_intron_features.py:31-44 | no file is empty and none holds more than the interval's lines |
| PartitionIntronFeatures.Files | partition_intron_features.py:36-40 | one output file per chunk |
| PartitionIntronFeatures.UsageExits | partition_intron_features.py:10-12 | fewer than four arguments exit with status 1 and write no files |
| PartitionIntronFeatures.FilesPerBinIgnored | partition_intron_features.py:17-23 | the files-per-bin argument changes nothing once it parses |
| PartitionIntronFeatures.PartitionIntronFeatures | partition_intron_features.py:6-50 | `main` writes exactly the files of the run |
| FilterByMinTotalReads.ReadRowsCells | util/filter_by_min_total_reads.py:29 | every row read comes from a non-blank line of the file: each cell is missing exactly when its field is one of the default missing-value texts, otherwise it keeps the field, and cells past the line's fields are missing |
| FilterByMinTotalReads.ReadRow | util/filter_by_min_total_reads.py:29 | a data line fails iff it has more fields than the table is wide (header plus implicit index columns); a shorter one is padded with missing cells |
| FilterByMinTotalReads.DropIndex | util/filter_by_min_total_reads.py:29 | each row loses exactly its leading index cells |
| FilterByMinTotalReads.ReadTable | util/filter_by_min_total_reads.py:29 | every row of the frame read has one cell per named column |
| FilterByMinTotalReads.ReadRowsFirst | util/filter_by_min_total_reads.py:29 | the first row read is the first non-blank line's row |
| FilterByMinTotalReads.ReadTableImplicitIndex | util/filter_by_min_total_reads.py:29 | when the first data line has more fields than the header, its leading extra fields are the index, and its row holds the cells of its remaining fields, one per column |
| FilterByMinTotalReads.ReadRowsWidth | util/filter_by_min_total_reads.py:29 | every row read has one cell per column |
| FilterByMinTotalReads.ColumnIndex | util/filter_by_min_total_reads.py:30 | a column is found iff the header names it, at a position holding that name |
| FilterByMinTotalReads.Totals | util/filter_by_min_total_reads.py:30 | each row is tagged with the sum of its uniq_mapped and multi_mapped cells, missing when either is |
| FilterByMinTotalReads.KeepCharacterized | util/filter_by_min_total_reads.py:32 | the kept rows are exactly those whose total reaches the minimum, each as often as in the input |
| FilterByMinTotalReads.DropColumn | util/filter_by_min_total_reads.py:36 | dropping a column the row does not have changes nothing |
| FilterByMinTotalReads.ToCsv | util/filter_by_min_total_reads.py:38 | the output is the header line followed by one tab-joined line per row |
| FilterByMinTotalReads.OutputRows | util/filter_by_min_total_reads.py:36-38 | each output row is its kept row without the helper column |
| FilterByMinTotalReads.KeptRows | util/filter_by_min_total_reads.py:29-34 | the rows written are, as a multiset, the input rows whose total reaches the minimum |
| FilterByMinTotalReads.KeptRowsSorted | util/filter_by_min_total_reads.py:32-34 | every row written reaches the minimum, and they come largest total first |
| FilterByMinTotalReads.KeptRowsWidth | util/filter_by_min_total_reads.py:32-34 | the rows written still have one cell per column |
| FilterByMinTotalReads.HelperColumnDropped | util/filter_by_min_total_reads.py:30-36 | without a `total_reads` input column the output has the input's columns and rows, unchanged |
| FilterByMinTotalReads.MissingWrittenAsNA | util/filter_by_min_total_reads.py:38 | a missing value is written as "NA", any other as its text |
| LiftOverConverter.OutcomeCharacterized | util/b38_to_hg19_intron_coord_converter.py:37-51 | a row is dropped silently iff an end has no lifted position, and reported iff both lift but not both to the row's chromosome |
| LiftOverConverter.KeyHasNoTab | util/b38_to_hg19_intron_coord_converter.py:56 | a key on a tab-free chromosome holds no tab |
| LiftOverConverter.ConvertedColumns | util/b38_to_hg19_intron_coord_converter.py:43-58 | a rewritten row keeps every other column, and its first column is the key of the lifted ends plus one, smaller first |
| LiftOverConverter.LiftedKeyReadsBack | util/b38_to_hg19_intron_coord_converter.py:53-56 | a lifted key reads back as the row's chromosome and the two lifted ends in order |
| LiftOverConverter.LineParts | util/b38_to_hg19_intron_coord_converter.py:29-35 | a line whose key parses is converted from that key and its other columns |
| LiftOverConverter.HeaderEchoed | util/b38_to_hg19_intron_coord_converter.py:15-27 | fewer than two arguments fail with the usage message, an empty file fails, and otherwise the stripped header is printed first |
| LiftOverConverter.ChainArgumentIgnored | util/b38_to_hg19_intron_coord_converter.py:20-22 | the chain file argument is never read: any other value gives the same run |
| LiftOverConverter.ConvertLinesFails | util/b38_to_hg19_intron_coord_converter.py:30-35 | the run stops iff some row's first column is not an intron key |
| LiftOverConverter.ConvertLinesCounts | util/b38_to_hg19_intron_coord_converter.py:28-58 | each row gives at most one printed line or one message; every printed line is a rewritten row and every message a reported one |
| Sorting.SortStrings | annotate_introns.py:87 | `sorted` over a chromosome's intron keys keeps every key and puts them in increasing string order |
| Sorting.LexAtMostIsTotalPreorder | annotate_introns.py:87 | Python's string order is total and transitive, so it can be sorted by |
| Sorting.SortDescendingPermutes | util/filter_by_min_total_reads.py:34 | a descending sort keeps every row, as often as it occurs |
| Sorting.SortDescendingSorted | util/filter_by_min_total_reads.py:34 | a descending sort puts larger keys first |
| Sorting.Sort | annotate_introns.py:87 | the sort keeps every element, as often as it occurs, and puts them in order |

## Left out

- Output is modelled as the complete sequence of lines a run writes, or a `Failure`. When a script stops on an error, the model does not say which lines were already written before the error.
- Logging, stderr progress counters, timing and the usage message texts are not modelled.
- Usage exits are modelled only where a script checks its own arguments and a modelled operation covers the script's `main`: util/b38_to_hg19_intron_coord_converter.py, partition_intron_features.py and generate_norm_count_updates_and_sample_count_add_queries.py. Not modelled: the `sys.exit(1)` with fewer than two arguments at Docker/intron_counter.py:14-16, the one at Docker/read_intron_labeler.py:14-16, and argparse's exit on a missing required option in evaluate_intron_tumor_enrichment.py, util/igv_read_alignment_extractor.py and util/filter_by_min_total_reads.py. Those models start from the parsed arguments.
- AnnotateIntrons.Report: the report is rows grouped by chromosome, not printed text. The header line printed before the rows (annotate_introns.py:78) and the tab-joining of each row (annotate_introns.py:108-113) are not modelled.
- SpliceSites.MatchIntronLine: `\d` is an ASCII digit. Python's `re` on `str` also matches the other Unicode decimal digits; a line whose coordinates use those is modelled as not matching. `\s` is modelled in full: Text.IsSpace holds for exactly the characters of `str.isspace()`, which is what `\s` matches.
- pysam (BAM reading, `fetch` and writing), FASTA reading, gzip and the sqlite connection are not modelled. Reads, sequences, file lines and query results are inputs instead.
- File writes are not modelled. `os.makedirs`, the per-file handles of the partitioner and the BAM writers of the extractor are out. Only the paths and lines that would be written are modelled.
- Float formatting (`{:.4f}`, `{:.2f}`, `{:.4}` and `str(float)`) is a `real -> string` parameter. Ratios, fractions and normalized values are exact `real`s, not IEEE doubles.
- Text.ParseInt: accepts an optional '-' and ASCII digits only. Python's `int()` also accepts '+', surrounding whitespace and '_' between digits; those inputs are modelled as errors.
- The order of SQL rows without `order by` is the order of the input row sequence. Ties under `order by ... desc` and under pandas' `sort_values` come out in the model's insertion-sort order. SampleTypeLists.ClassRowsSorted and FilterByMinTotalReads.KeptRowsSorted therefore promise only a descending permutation, not a particular tie order.
- Dict iteration is in insertion order, as in Python 3.7 and later. Python set iteration order is unspecified; ExonOverlap returns gene sets as Dafny sets, and the report row's gene text is a parameter of that set.
- `defaultdict` reads that create keys are not modelled. In the enrichment script, looking up a missing census group gives 0 without adding the group.
- The enrichment script's statements go to stdout. Its `--output_file` is opened and never written, and the model does not model that file.
- The counter lines of evaluate_intron_usage_stats.py carry no intron, so neither the as-written insert nor the corrected one fills the `intron` column of intron_sample_type_counts. The model keeps that gap.
- KnownAnnotation.KnownIntronAnnotation: its query names `all_map_sample_count` and `all_map_sample_pct` (util/known_intron_annotation_file_maker.py:47-50). The table as created at db_build/ctat_splice_db_create.py:70-79 has no such columns. The model reads `all_count` and `all_pct` instead, rather than modelling the query error.
- FilterByMinTotalReads: the model does not infer pandas dtypes. Count columns are integers or missing, and any other text fails the sum. CSV quoting, float rendering of columns that hold missing values, and `read_table` options other than tab separation and the default missing-value texts are out.
- LiftOverConverter: pyliftover is a function parameter returning the hits best first. Its `None` for an unknown chromosome and its empty list are both modelled as no hits, since the script treats them alike. LiftOverConverter.LiftedKeyReadsBack assumes lifted positions that are not negative.
- IgvExtractor.RouteReads: a read fetched for two regions is written once per region, as in the script. BAM headers and templates are not modelled.
- OccurrenceCapture.GenesLabel: a gene set is a sequence without repeats, and the label joins it in first-added order. Python's `list(set)` order is unspecified, so only the set of genes a label names is order-free; OccurrenceCapture.GenesLabelSame states that set equality as well as the first-added sequence.
- AnnotateIntrons: the gene column of a report row is a function of the found gene set. Python's set-to-string order is not modelled.
- The orchestration scripts, the visualization scripts, the database DDL scripts, the pyranges wrappers and the BAM read extractor are not part of this model.

## Findings

| source | as written | input that shows it | evidently intended | confidence | as-written member | corrected member |
|---|---|---|---|---|---|---|
| evaluate_intron_usage_stats.py:104 | `intron_unique_mappings != "0"` compares the INT value of the query with the string "0"; likewise at lines 108 and 112 | an occurrence with unique_mappings = 0: `0 != "0"` holds, so its group's uniq count is incremented | a category is tallied only when the occurrence has reads in it | not executed | UsageStats.ZeroRowTallied | UsageStats.TallyOfCounts |
| generate_norm_count_updates_and_sample_count_add_queries.py:34-38 | the insert names six columns but its format string has seven slots; multi_count lands under all_count and multi_pct under all_pct, all_count is a seventh value without a column, and all_pct is dropped; it also reads `insert intron_sample_type_counts (...)` without `into`, which SQLite does not accept, and the corrected statement adds `into` | `INTRON_SAMPLE_TYPE_COUNTER	TCGA^BRCA	3	0.1	4	0.2	5	0.3` gives seven values for six columns | one column per field of the counter line, each field under its own name | not executed | SqlGeneration.InsertAsWrittenMismatch | SqlGeneration.InsertColumnsMatch |
| generate_norm_count_updates_and_sample_count_add_queries.py:48-49 | the update filters on `sample_type`, which intron_occurrence (intron_sqlite3_bulk_load_prepper.py:169-178) does not have | `INTRON_NORM_VALS	chr1:100-200	S1	1.0	2.0	3.0` | filter on the `sample` column | not executed | SqlGeneration.UpdateAsWrittenUnknownColumn | SqlGeneration.UpdateColumnsExist |
