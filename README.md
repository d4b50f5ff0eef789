# CoLRev record-processing rules, modelled and verified in Dafny

CoLRev (Collaborative Literature Reviews) keeps the records of a literature review in one store and moves each record through a chain of states: `md_imported`, `md_prepared`, `md_needs_manual_preparation`, `md_processed`, `pdf_needs_manual_preparation`, `rev_included` and so on. External services, git, PDFs and pandas sit around a set of record-processing rules. This project models those rules and proves what they promise:

- **Incremental deduplication** (`SimpleDedupe`). It builds the dedupe queue (processed records first, then pending ones) and refuses more than 20 pending records without force mode. It cuts one batch per pending position. Each batch is classified by the maximum similarity to the earlier rows, in three threshold bands. Potential duplicates are relabelled interactively.
- **Commit validation** (`Validate`). It finds the snapshot after a target commit and compares prepared records with their prior versions by origin. It compares merged records pairwise over their origins, keeps the comparisons below similarity 1, and sorts them stably in descending order. It also infers the validation scope from a commit message and looks up a commit by tree hash.
- **Branch reconciliation** (`Merge`). It diffs two ID-to-record maps while ignoring `colrev_status`. It then reconciles status-only conflicts from a sequence of user choices.
- **Search-source parsers, normalisers and heuristics**:
  - DBLP JSON to record, and DBLP query normalisation (`Dblp`);
  - Europe PMC XML to record, and most-similar selection (`EuropePmc`);
  - OpenAlex work to record (`OpenAlex`);
  - PDF-directory helpers: batching, broken paths, title and outlet fixes, directory-pattern fields, `md_string` and origin pruning (`PdfsDir`);
  - the RIS key fixes of PsycINFO and IEEE Xplore (`PsycInfo`, `Ieee`, sharing `Ris`);
  - the EBSCOhost heuristic (`EbscoHost`);
  - DOI selection from a landing page (`DoiFromUrlsPrep`).
- **Bookkeeping operations**:
  - manual PDF preparation: statistics, export and applying the edits by origin (`PdfPrepMan`);
  - the legacy manual metadata preparation of `review_template` (`TemplatePrepMan`);
  - grouping record corrections by origin prefix and pushing them to their sources (`Push`);
  - the command-line screening machine, fed by a sequence of input lines (`ScreenCli`);
  - the custom data endpoint's status matrix (`CustomDataScript`).

`Common` holds what the modules share:
- `Option`/`Result` and the Python exceptions the code raises;
- the record (`fields: map<string, string>`, `origin: seq<string>`, provenance);
- Python's string operations with their exact edge cases: `find`/`rfind` returning -1, slicing with a negative bound, `replace`, `count`, `split`, `join`, `strip` (over every character for which `str.isspace()` holds), `str(int)`; `lower`/`upper` map ASCII letters only, and where the full Unicode mapping decides an outcome (a title compared with its venue) `str.lower()` is a parameter.

Similarity scores, the language service, author formatting, the network and the user's answers are function parameters or input sequences. Every loop of the source is a `method` whose `ensures` ties its result to a specification function. The lemmas state what the source promises about those functions. The model follows the code where the project's own documentation disagrees with it. For example, a dedupe similarity equal to the non-duplicate threshold is classified `no_duplicate`, as the `<=` in `simple_dedupe.py` says.

## Model

| member | source | states |
|---|---|---|
| CustomDataScript.GetDefaultSetup | colrev/template/custom_data_script.py:29-35 | the default setup names the CustomDataFormat endpoint, format version "0.1" and an empty config |
| CustomDataScript.Synthesized | colrev/template/custom_data_script.py:51-53 | every record of the matrix ends up marked True for the endpoint; no row is added or removed and the other endpoints' entries are kept |
| CustomDataScript.SynthesizedIdempotent | colrev/template/custom_data_script.py:51-53 | marking the matrix a second time changes nothing |
| CustomDataScript.UpdateRecordStatusMatrix | colrev/template/custom_data_script.py:45-53 | the loop over the record IDs leaves the matrix exactly as `Synthesized` describes |
| Ris.Move | colrev/ops/built_in/search_sources/ieee.py:120 | `entry[to] = entry.pop(from)`: the moved value sits under the new key, the old key is gone, and every other key is untouched |
| Ris.MoveToAbsentRenames | colrev/ops/built_in/search_sources/ieee.py:119-122 | moving a value to a key the entry lacks loses no value and adds none: it is a rename |
| Ris.ValidateQueryFile | colrev/ops/built_in/search_sources/ieee.py:63-72 | validation succeeds exactly when a query_file parameter names an existing file; every failure is an InvalidQueryException |
| Ris.MissingQueryFileFirst | colrev/ops/built_in/search_sources/ieee.py:63-66 | a missing query_file parameter is reported before the file system is consulted |
| Ieee.RisFixRenamesOnly | colrev/ops/built_in/search_sources/ieee.py:116-122 | the RIS fixes only rename keys: as many keys as before and the same values |
| Ieee.RisFixTitle | colrev/ops/built_in/search_sources/ieee.py:118-120 | title moves to primary_title only for CONF and JOUR entries that have no primary_title |
| Ieee.RisFixYear | colrev/ops/built_in/search_sources/ieee.py:121-122 | publication_year moves to year only when the entry has no year |
| Ieee.RisFixOtherKeys | colrev/ops/built_in/search_sources/ieee.py:116-122 | every other key keeps its value |
| Ieee.RisFixIdempotent | colrev/ops/built_in/search_sources/ieee.py:116-122 | fixing an entry twice changes nothing more |
| Ieee.RisFixes | colrev/ops/built_in/search_sources/ieee.py:116-122 | the entries are fixed in place, in order, up to the first one without type_of_reference, where a KeyError stops the loop |
| Ieee.Load | colrev/ops/built_in/search_sources/ieee.py:124-137 | only a .ris file is loaded, with the fixes applied; any other suffix raises NotImplementedError and changes nothing |
| Ieee.HeaderEnd | colrev/ops/built_in/search_sources/ieee.py:85 | the greedy scan for `@[A-Z]*\{[0-9]*,\n` ends inside the text, after its start |
| Ieee.NumericHeaderAtMatches | colrev/ops/built_in/search_sources/ieee.py:85 | a header the greedy scan finds is accepted by the regular expression |
| Ieee.MatchesAreNumericHeaderAt | colrev/ops/built_in/search_sources/ieee.py:85 | every header the regular expression accepts is the one the greedy scan finds |
| Ieee.HeadersDoNotOverlap | colrev/ops/built_in/search_sources/ieee.py:85 | no header starts inside another, so counting start positions counts the matches of re.findall |
| Ieee.NumericHeadersFrom | colrev/ops/built_in/search_sources/ieee.py:85 | the count of numeric-key headers from a position on is bounded by the remaining length |
| Ieee.Heuristic | colrev/ops/built_in/search_sources/ieee.py:78-92 | the confidence is 1.0 for a BibTeX export with INPROCEEDINGS whose entries all have numeric keys, or for a CSV whose first line names both Xplore columns, and 0.1 otherwise, in both directions; empty data has no first line and raises IndexError |
| Ieee.HeuristicDefault | colrev/ops/built_in/search_sources/ieee.py:82-90 | a text without INPROCEEDINGS and without the Xplore column names keeps the default 0.1 |
| Ieee.GetMasterdata | colrev/ops/built_in/search_sources/ieee.py:106-114 | get_masterdata returns the record unchanged |
| Ieee.Prepare | colrev/ops/built_in/search_sources/ieee.py:149-154 | prepare returns the record unchanged |
| EbscoHost.Heuristic | colrev/ops/built_in/search_sources/ebsco_host.py:49-59 | the confidence is 1.0 exactly when the data starts more than one entry with "\n@" and names search.ebscohost.com at least as often; otherwise 0.0 |
| EbscoHost.HeuristicWithoutEntries | colrev/ops/built_in/search_sources/ebsco_host.py:55 | a text that never starts an entry on a new line is not recognised |
| EbscoHost.RecognisedNamesHost | colrev/ops/built_in/search_sources/ebsco_host.py:55-57 | a recognised text names the EBSCOHost address |
| EbscoHost.HeuristicWithoutHost | colrev/ops/built_in/search_sources/ebsco_host.py:56 | a text that never names the EBSCOHost address is not recognised |
| EbscoHost.GetMasterdata | colrev/ops/built_in/search_sources/ebsco_host.py:80-88 | get_masterdata returns the record unchanged |
| EbscoHost.LoadFixes | colrev/ops/built_in/search_sources/ebsco_host.py:90-98 | load_fixes returns the records unchanged |
| EbscoHost.Prepare | colrev/ops/built_in/search_sources/ebsco_host.py:100-105 | prepare returns the record unchanged |
| DoiFromUrlsPrep.MostCommonFromIsMostCommon | colrev/ops/built_in/prep/doi_from_urls_prep.py:84-85 | the scan behind `Counter.most_common()[0]` keeps a value that occurs at least as often as every value seen, and strictly more often than those met before its first occurrence |
| DoiFromUrlsPrep.MostCommonIsFirstMostFrequent | colrev/ops/built_in/prep/doi_from_urls_prep.py:84-90 | the chosen DOI is a match occurring at least as often as any other; ties go to the match seen first |
| DoiFromUrlsPrep.ChosenDoi | colrev/ops/built_in/prep/doi_from_urls_prep.py:77-90 | no DOI exactly when the page has no match, and a chosen DOI is one of the matches |
| DoiFromUrlsPrep.ChosenDoiIsMostCommon | colrev/ops/built_in/prep/doi_from_urls_prep.py:81-85 | the single-match shortcut chooses what most_common would have chosen |
| DoiFromUrlsPrep.RequestUrl | colrev/ops/built_in/prep/doi_from_urls_prep.py:71 | the url is requested when present, otherwise the fulltext link |
| DoiFromUrlsPrep.Candidate | colrev/ops/built_in/prep/doi_from_urls_prep.py:92-96 | the record looked up holds exactly the DOI in upper case and the record's ID |
| DoiFromUrlsPrep.Prepare | colrev/ops/built_in/prep/doi_from_urls_prep.py:60-119 | a record without url and fulltext, or with a doi, is returned as it is; the only error is a KeyError for a record without ID once a DOI is chosen; a record changes exactly into the merge of the retrieved record for the chosen DOI of the requested page: whenever that record is retrieved, reaches the similarity threshold and merges, the result is the merge, and any changed record is such a merge |
| DoiFromUrlsPrep.UrlBeforeFulltext | colrev/ops/built_in/prep/doi_from_urls_prep.py:71-79 | with both url and fulltext, a failed request to the url leaves the record unchanged: the fulltext link is never tried |
| PsycInfo.GetContentAt | colrev/ops/built_in/search_sources/psycinfo.py:42-44 | when find reports the separator at k, the content is the stripped text from k+2 on |
| PsycInfo.GetContentAfterSeparator | colrev/ops/built_in/search_sources/psycinfo.py:42-44 | after a " - " separator the content is the rest of the line after the separator, stripped |
| PsycInfo.GetContentWithoutSeparator | colrev/ops/built_in/search_sources/psycinfo.py:42-44 | without a separator find gives -1, so the content is the line without its first character, stripped |
| PsycInfo.TagLineIsPattern | colrev/ops/built_in/search_sources/psycinfo.py:46-48 | a line is a tag line (not a header) exactly when it starts with one or more of A-Z0-9 followed by "  - ", as the regular expression reads it |
| PsycInfo.RisFixFields | colrev/ops/built_in/search_sources/psycinfo.py:138-145 | JOUR entries get alternate_title3 as secondary_title, publication_year always becomes year, and first_authors becomes authors only when there are no authors |
| PsycInfo.RisFixOtherKeys | colrev/ops/built_in/search_sources/psycinfo.py:138-145 | every field the fixes do not name keeps its value |
| PsycInfo.RisFixFixed | colrev/ops/built_in/search_sources/psycinfo.py:138-145 | on a fixed entry none of the three fixes applies again: no JOUR entry keeps alternate_title3, no publication_year is left, and first_authors remains only beside authors |
| PsycInfo.RisFixIdempotent | colrev/ops/built_in/search_sources/psycinfo.py:138-145 | fixing an entry twice changes nothing more |
| PsycInfo.RisFixes | colrev/ops/built_in/search_sources/psycinfo.py:138-145 | the entries are fixed in place, in order, up to the first entry with alternate_title3 but no type_of_reference, where a KeyError stops the loop |
| PsycInfo.Load | colrev/ops/built_in/search_sources/psycinfo.py:147-160 | only a .ris file is loaded, with the fixes applied; any other suffix raises NotImplementedError and changes nothing |
| PsycInfo.Heuristic | colrev/ops/built_in/search_sources/psycinfo.py:101-114 | the confidence is 1.0 exactly for data starting with the APA provider header, 0.1 otherwise |
| PsycInfo.HeuristicOnlyReadsHeader | colrev/ops/built_in/search_sources/psycinfo.py:109-112 | only the beginning decides: whatever follows the header keeps 1.0 |
| PsycInfo.GetMasterdata | colrev/ops/built_in/search_sources/psycinfo.py:128-136 | get_masterdata returns the record unchanged |
| PsycInfo.Prepare | colrev/ops/built_in/search_sources/psycinfo.py:172-177 | prepare returns the record unchanged |
| Merge.MissingFrom | colrev/ops/merge.py:46-48 | the IDs listed as missing are exactly those of one branch that the other lacks; the list is empty iff the second branch holds every ID of the first |
| Merge.ChangedIdsOk | colrev/ops/merge.py:66-81 | when every shared pair carries colrev_status the comparison does not raise, and no record is reported changed iff every shared pair agrees apart from its status |
| Merge.ChangedIdsOkHasStatuses | colrev/ops/merge.py:72-75 | a comparison that does not raise found colrev_status on both records of every shared pair (deleting it raises KeyError otherwise) |
| Merge.ChangedIdsComplete | colrev/ops/merge.py:66-81 | every shared record that differs from its counterpart apart from its status is reported |
| Merge.ChangedIdsSound | colrev/ops/merge.py:66-81 | only shared records that differ from their counterpart apart from the status are reported |
| Merge.StatusOnlyDifferenceNotReported | colrev/ops/merge.py:72-77 | two records that differ only in colrev_status are not reported as changed |
| Merge.Entry | colrev/ops/merge.py:49-54 | a report entry appears exactly when its list of IDs is non-empty |
| Merge.Report | colrev/ops/merge.py:49-64 | the report holds the missing-in-current, missing-in-other and changed-fields entries, each exactly when it has IDs, and never an empty entry |
| Merge.ReportShape | colrev/ops/merge.py:44-85 | the report holds only those three entries, in that order |
| Merge.NonStatusChanges | colrev/ops/merge.py:36-85 | the report raises exactly when the comparison of shared records raises, and otherwise lists records missing in the current branch, records missing in the other branch and changed records |
| Merge.NonStatusChangesEmptyIff | colrev/ops/merge.py:147-159 | the merge goes on to reconcile statuses (an empty report) iff both branches hold the same IDs and every pair agrees apart from its status |
| Merge.EmptyReportMakesReconcilable | colrev/ops/merge.py:179-196 | after an empty report every current record has a counterpart carrying a status, so the lookups of the reconciliation loop do not raise |
| Merge.CounterpartAt | colrev/ops/merge.py:187-191 | every record of a reconcilable branch finds its counterpart |
| Merge.ReconcilableFromAll | colrev/ops/merge.py:187-191 | a branch whose every record has a counterpart is reconcilable |
| Merge.NrConflictsBefore | colrev/ops/merge.py:179-185 | the conflicts among the first k records number at most k |
| Merge.NrConflictsMonotone | colrev/ops/merge.py:179-197 | the count of conflicts grows with the prefix, so the counter i never passes nr_to_reconcile |
| Merge.Resolution | colrev/ops/merge.py:212-224 | answer "1" keeps the current branch's status, and any other answer takes the other branch's |
| Merge.ReconciledChangesOnlyStatus | colrev/ops/merge.py:193-228 | reconciliation changes a record at most in its colrev_status, which it still carries; a record whose statuses agree is kept as it is |
| Merge.ReconciledTakesChoice | colrev/ops/merge.py:197-228 | with an answer for every conflict, the conflicting record takes its own status on "1" and the other branch's status otherwise, using the answer numbered by the conflicts before it |
| Merge.ReconcileStep | colrev/ops/merge.py:187-228 | one iteration: a conflict bumps the counter and consumes the next answer, an agreement keeps the record, and only that record changes |
| Merge.ReconciledUpToAll | colrev/ops/merge.py:187-231 | once every record has been handled, the records are the reconciled ones |
| Merge.ChoicesRunOut | colrev/ops/merge.py:179-231 | a conflict met after every answer is used means more conflicts than answers, so the EOFError path is taken exactly when the answers are too few |
| Merge.ResolveRecord | colrev/ops/merge.py:191-228 | one record of the loop: a status conflict takes the next answer ("1" keeps the current status, anything else the other's) and advances the counter, agreeing records stay as they are, and a conflict with no answer left means more conflicts than answers |
| Merge.ReconcileStatuses | colrev/ops/merge.py:179-231 | the loop succeeds iff there are at least nr_to_reconcile answers (running out raises EOFError); on success it returns nr_to_reconcile and leaves the records reconciled |
| Merge.ReconcileBranches | colrev/ops/merge.py:145-231 | a KeyError or a non-empty report leaves the records untouched (the report is returned); an empty report leads to status reconciliation with the outcome above |
| Validate.FirstIndex | colrev/ops/validate.py:38-42 | the index found holds the target commit and no earlier one does; None means that no commit has the target sha |
| Validate.LoadPriorRecordsDict | colrev/ops/validate.py:22-49 | the loop with the found_target_commit flag returns the prior snapshot: the records of the first commit listed after the target that is not the target; otherwise prior_records_dict is unbound (UnboundLocalError) |
| Validate.PriorSnapshotIsNext | colrev/ops/validate.py:38-48 | in a history of distinct commits the prior snapshot is the commit right after the target, and there is none when the target is the oldest |
| Validate.PriorSnapshotAbsent | colrev/ops/validate.py:38-49 | without the target in the history prior_records_dict stays unbound |
| Validate.PriorSnapshotNeverTarget | colrev/ops/validate.py:40-48 | the snapshot comes from a commit listed after the target, and never from the target itself |
| Validate.Below1 | colrev/ops/validate.py:79 | exactly the triples with similarity below 1 are kept, each taken from the input |
| Validate.InsertDesc | colrev/ops/validate.py:82 | inserting into the sorted list adds exactly one element and keeps all the others |
| Validate.SortDesc | colrev/ops/validate.py:82 | sorting is a permutation of the triples |
| Validate.InsertDescSorted | colrev/ops/validate.py:82 | inserting into a list sorted by descending similarity keeps it sorted |
| Validate.SortDescSorted | colrev/ops/validate.py:82 | the sorted list is ordered by descending similarity |
| Validate.SortDescStable | colrev/ops/validate.py:82 | the sort is stable: triples of equal similarity keep their original order |
| Validate.FinishProperties | colrev/ops/validate.py:79-84 | both validations return exactly the non-identical pairs (similarity below 1), as a permutation, sorted stably by descending similarity |
| Validate.PriorsWithOrigin | colrev/ops/validate.py:66-70 | the prior records selected are exactly those whose colrev_origin holds the link |
| Validate.OriginTriplesShareOrigin | colrev/ops/validate.py:65-77 | every triple pairs a prior record with the current record and carries their similarity |
| Validate.OriginTriplesComplete | colrev/ops/validate.py:65-77 | every prior record that shares an origin with the current record gets a triple |
| Validate.PreparationTriplesErrPrefix | colrev/ops/validate.py:59-77 | the first record that raises decides the outcome of the whole loop |
| Validate.CompareWithPriors | colrev/ops/validate.py:65-77 | the nested loops over one record's origins and their prior records compute the specified triples |
| Validate.ValidatePreparationChanges | colrev/ops/validate.py:51-84 | the result is the preparation validation of the records, and a KeyError is raised for a marked record without colrev_status; on success every marked record loses its marker and its status in place while the others are unchanged, and a missing snapshot changes nothing |
| Validate.Pairs | colrev/ops/validate.py:102 | itertools.combinations(s, 2) yields n*(n-1)/2 pairs, each (s[i], s[j]) with i < j |
| Validate.PairsComplete | colrev/ops/validate.py:102 | every pair of positions i < j appears among the combinations |
| Validate.FirstWithOrigin | colrev/ops/validate.py:104-116 | record_1[0] is a prior record holding the origin; None means that no prior record holds it, where [0] raises IndexError |
| Validate.MergeTriplesErrPrefix | colrev/ops/validate.py:95-119 | the first record whose comparison raises decides the outcome of the loop over records |
| Validate.PairTriplesErrPrefix | colrev/ops/validate.py:103-119 | the first origin pair that cannot be resolved decides the outcome of the loop over pairs |
| Validate.CompareOriginPairs | colrev/ops/validate.py:103-119 | the loop over one record's origin pairs computes the specified triples or raises IndexError |
| Validate.ValidateMergingChanges | colrev/ops/validate.py:86-132 | the result is the merging validation of the records under the given merge test; on success every marked record loses its marker in place while the others are unchanged, and a missing snapshot changes nothing |
| Validate.MergeTriplesUnmarked | colrev/ops/validate.py:95-98 | records none of which carries changed_in_target_commit produce no comparisons |
| Validate.MergedABPairs | colrev/ops/validate.py:102-119 | the record merged from origins a and b is compared as the prior record of a against the prior record of b |
| Validate.SemicolonTestMissesMergedRecord | colrev/ops/validate.py:99 | as written, the test for ";" as an element of the origin list skips a record merged from two origins, which the test for several origins compares |
| Validate.PairTriplesCount | colrev/ops/validate.py:103-119 | when every origin resolves in the prior snapshot, each pair yields exactly one comparison and no IndexError |
| Validate.MergedRecordComparisons | colrev/ops/validate.py:99-119 | under the intended test a merged record of n resolvable origins gets n*(n-1)/2 comparisons |
| Validate.LoadChangedRecords | colrev/ops/validate.py:134-147 | without a target commit every stored record is returned, marked changed_in_target_commit = "True"; with one, the records the history reports as changed are returned |
| Validate.ScopeOf | colrev/ops/validate.py:230-235 | a message containing "colrev prep" gives prepare, otherwise one containing "colrev dedupe" gives merge, and anything else gives unspecified |
| Validate.InferredScope | colrev/ops/validate.py:228-236 | the scope is unbound (UnboundLocalError) iff the last commit is absent from the status.yaml history; otherwise it is the scope of that commit's message, taken from its last listing |
| Validate.SetScopeBasedOnTargetCommit | colrev/ops/validate.py:215-236 | the loop computes the inferred scope of the last commit's sha, whatever target was passed |
| Validate.Trees | colrev/ops/validate.py:206-210 | valid_options lists the tree of every commit, in order |
| Validate.GetCommitFromTreeHash | colrev/ops/validate.py:204-213 | the result is found iff some commit has the tree hash, and it is the sha of the first such commit; otherwise ParameterError carries every tree |
| Validate.AfterPreparationUnmarks | colrev/ops/validate.py:61-63 | no record carries changed_in_target_commit after the preparation validation |
| Validate.AfterPreparationAll | colrev/ops/validate.py:59-64 | the record dicts after the preparation loop are each record with its marker and status removed if it was marked |
| Validate.RunValidation | colrev/ops/validate.py:238-269 | with properties the result is []; otherwise, after inferring the scope, prepare and merge run one validation each; all runs both on the same record dicts and returns the merge result; any other scope raises UnboundLocalError on validation_details |
| Validate.AllScopeReportsNothing | colrev/ops/validate.py:252-260 | as written, scope all always returns an empty merge report: the preparation pass has already removed every changed_in_target_commit marker |
| Validate.RunValidationCorrected | colrev/ops/validate.py:238-269 | the intended main: the merge validation gets its own copy of the loaded records and uses the several-origins test, with every other outcome as in main |
| SimpleDedupe.Init | colrev/ops/built_in/dedupe/simple_dedupe.py:51-63 | the settings are accepted exactly when both thresholds lie in [0, 1]; otherwise AssertionError |
| SimpleDedupe.InitAcceptsInvertedThresholds | colrev/ops/built_in/dedupe/simple_dedupe.py:60-63 | the assertions let a non-duplicate threshold above the duplicate threshold through |
| SimpleDedupe.IdsWhere | colrev/ops/built_in/dedupe/simple_dedupe.py:198-212 | the comprehension lists the ID of every header whose status passes the filter, and only those |
| SimpleDedupe.ScanError | colrev/ops/built_in/dedupe/simple_dedupe.py:198-212 | a comprehension over the headers raises KeyError (on colrev_status or ID) exactly when some header lacks its status, or lacks the ID that the filter makes it read |
| SimpleDedupe.GetDedupeData | colrev/ops/built_in/dedupe/simple_dedupe.py:191-236 | KeyError iff some header cannot be read; otherwise more than 20 md_prepared records without force mode raise CoLRevException; else the queue is the processed IDs followed by the md_prepared IDs, with items_start the number of processed IDs and nr_tasks the number of md_prepared IDs |
| SimpleDedupe.QueueSplitsByStatus | colrev/ops/built_in/dedupe/simple_dedupe.py:198-232 | no record in md_imported, md_prepared or md_needs_manual_preparation enters the processed part of the queue, every md_prepared record is among the tasks, and every task is md_prepared |
| SimpleDedupe.QueueRows | colrev/ops/built_in/dedupe/simple_dedupe.py:245-249 | the stored records whose ID is queued, all of them and in store order |
| SimpleDedupe.Prefix | colrev/ops/built_in/dedupe/simple_dedupe.py:262 | iloc[:n] is the first n rows, or all rows when there are fewer |
| SimpleDedupe.BuildBatch | colrev/ops/built_in/dedupe/simple_dedupe.py:256-265 | one item per queue position from items_start on, each naming the queued ID and holding the table rows up to and including that position |
| SimpleDedupe.GetRecordBatch | colrev/ops/built_in/dedupe/simple_dedupe.py:238-265 | as written, the batch is built on the queued records in store order after prep_records |
| SimpleDedupe.ExampleQueue | colrev/ops/built_in/dedupe/simple_dedupe.py:198-232 | an md_prepared record A stored before a processed record B gives the queue [B, A] with one task |
| SimpleDedupe.ExampleQueueRows | colrev/ops/built_in/dedupe/simple_dedupe.py:245-249 | for that store the table rows stay in store order, A before B |
| SimpleDedupe.ExampleBatch | colrev/ops/built_in/dedupe/simple_dedupe.py:256-265 | with one task after one processed record, the single item takes both rows |
| SimpleDedupe.StoreOrderBatchMisplacesRecord | colrev/ops/built_in/dedupe/simple_dedupe.py:245-265 | as written, task A's item ends with row B, so append_merges scores the records against B instead of A |
| SimpleDedupe.RowsInQueueOrder | colrev/ops/built_in/dedupe/simple_dedupe.py:245-254 | when every queued ID is stored, the rows follow the queue one for one |
| SimpleDedupe.GetRecordBatchInQueueOrder | colrev/ops/built_in/dedupe/simple_dedupe.py:238-265 | the corrected batch is built on the rows in queue order |
| SimpleDedupe.BatchItemAt | colrev/ops/built_in/dedupe/simple_dedupe.py:258-264 | the k-th item names queue[items_start + k] and holds the rows up to and including that position |
| SimpleDedupe.QueueOrderBatchEndsWithOwnRecord | colrev/ops/built_in/dedupe/simple_dedupe.py:69-76 | in queue order every item's last row is its own record, preceded by the earlier queue entries, as the similarity calculation needs |
| SimpleDedupe.BatchCoversTasks | colrev/ops/built_in/dedupe/simple_dedupe.py:227-232 | the batch holds exactly nr_tasks items |
| SimpleDedupe.CalculateSimilaritiesRecord | colrev/ops/built_in/dedupe/simple_dedupe.py:65-90 | every row, the last one included, is scored against the last row, and the table keeps each row's ID |
| SimpleDedupe.IdxMax | colrev/ops/built_in/dedupe/simple_dedupe.py:147 | idxmax returns the first position holding the largest similarity |
| SimpleDedupe.Band | colrev/ops/built_in/dedupe/simple_dedupe.py:128-188 | no_duplicate iff the maximum is at most the non-duplicate threshold; potential_duplicate iff it lies strictly between the thresholds; duplicate otherwise |
| SimpleDedupe.BandMonotone | colrev/ops/built_in/dedupe/simple_dedupe.py:128-188 | a higher maximum similarity never yields a weaker decision, whatever the thresholds |
| SimpleDedupe.InvertedThresholdsNeverPotential | colrev/ops/built_in/dedupe/simple_dedupe.py:141-145 | with inverted thresholds no pair is ever a potential duplicate |
| SimpleDedupe.AppendMerges | colrev/ops/built_in/dedupe/simple_dedupe.py:92-189 | with fewer than two rows the record is a no_duplicate of NA with similarity 1; otherwise the similarity is the largest score of an earlier row against the last row, the band of that maximum decides, and ID2 is NA for no_duplicate and otherwise the first row that reaches the maximum |
| SimpleDedupe.Potentials | colrev/ops/built_in/dedupe/simple_dedupe.py:270-272 | every result shown to the reviewer is one of the results and was decided potential_duplicate |
| SimpleDedupe.PotentialsComplete | colrev/ops/built_in/dedupe/simple_dedupe.py:270-272 | every result decided potential_duplicate is shown to the reviewer |
| SimpleDedupe.CountAnswer | colrev/ops/built_in/dedupe/simple_dedupe.py:292-311 | an answer count never exceeds the number of answers |
| SimpleDedupe.CountYesNoBound | colrev/ops/built_in/dedupe/simple_dedupe.py:306-311 | "y" and "n" never both count the same answer, so n_match + n_distinct never exceeds the number of pairs shown |
| SimpleDedupe.FirstUnstored | colrev/ops/built_in/dedupe/simple_dedupe.py:292-297 | the index of the first potential duplicate one of whose IDs has no row in the reloaded records: every earlier pair has both rows, and that pair lacks one |
| SimpleDedupe.FoundPairPassed | colrev/ops/built_in/dedupe/simple_dedupe.py:292-297 | a pair whose two rows are both found lies before the first pair with a missing row |
| SimpleDedupe.LabelsAtMissingPair | colrev/ops/built_in/dedupe/simple_dedupe.py:294-297 | reaching a pair with a missing row, with the earlier pairs answered, ends the labelling in IndexError |
| SimpleDedupe.LabelsAtMissingAnswer | colrev/ops/built_in/dedupe/simple_dedupe.py:297-303 | reaching a found pair when the answers have run out ends the labelling in EOFError |
| SimpleDedupe.LabelPair | colrev/ops/built_in/dedupe/simple_dedupe.py:299-311 | a potential duplicate answered "y" becomes a duplicate and counts as a match, "n" becomes no_duplicate and counts as distinct, any other answer leaves it and counts nothing |
| SimpleDedupe.LabelPairs | colrev/ops/built_in/dedupe/simple_dedupe.py:292-311 | IndexError when the first pair with a missing row comes no later than the answers run out; EOFError when the answers run out first; otherwise each pair takes the decision of its own answer and n_match and n_distinct count the "y" and "n" answers |
| SimpleDedupe.ProcessPotentialDuplicates | colrev/ops/built_in/dedupe/simple_dedupe.py:267-313 | the potential duplicates, in batch order, are labelled as LabelPairs states against the reloaded records and the answers |
| SimpleDedupe.MissingRecordRaisesIndexError | colrev/ops/built_in/dedupe/simple_dedupe.py:294-297 | a potential duplicate whose first record was merged away (no row in the reloaded records) makes the labelling raise IndexError whenever it is reached before the answers run out |
| SimpleDedupe.DecideBatch | colrev/ops/built_in/dedupe/simple_dedupe.py:341-345 | the k-th result is append_merges of the k-th batch item |
| SimpleDedupe.DecideAndLabel | colrev/ops/built_in/dedupe/simple_dedupe.py:341-353 | the batch results are append_merges of each batch item, and the labelling is that of their potential duplicates against the reloaded records and the answers |
| SimpleDedupe.RunDedupe | colrev/ops/built_in/dedupe/simple_dedupe.py:316-373 | as written: an error of __get_dedupe_data is returned as it is; otherwise the batch is the store-order batch of __get_record_batch, each batch result is append_merges of its item, one per task, and the potential duplicates are labelled against the store reloaded after the merges, with IndexError for a merged-away record and EOFError when the answers run out |
| SimpleDedupe.RunDedupeCorrected | colrev/ops/built_in/dedupe/simple_dedupe.py:316-373 | the same run on the queue-order batch, so each record is compared with the records before it in the queue |
| PdfsDir.BatchSizes | colrev/ops/built_in/search_sources/pdfs_dir.py:532-544 | there are ceil(n / 20) batches, each holding 1 to 20 paths, and all but the last hold exactly 20 |
| PdfsDir.BatchesPrefix | colrev/ops/built_in/search_sources/pdfs_dir.py:538-543 | the first k batches together are the first 20k paths, or all of them |
| PdfsDir.BatchesConcat | colrev/ops/built_in/search_sources/pdfs_dir.py:532-544 | the batches, one after the other, are exactly the paths to index, each once and in order |
| PdfsDir.LastChars | colrev/ops/built_in/search_sources/pdfs_dir.py:378-381 | str(path)[-n:] is the whole text when it is shorter than n |
| PdfsDir.LastCharsIsEndsWith | colrev/ops/built_in/search_sources/pdfs_dir.py:378-381 | comparing the last \|t\| characters with t is the same as testing that the path ends with t |
| PdfsDir.IsBrokenFilepath | colrev/ops/built_in/search_sources/pdfs_dir.py:367-388 | a path is skipped exactly when it contains ";" or ends in _ocr.pdf, _wo_cp.pdf, _wo_lp.pdf or _backup.pdf |
| PdfsDir.ValidateSource | colrev/ops/built_in/search_sources/pdfs_dir.py:390-427 | as written, validation passes iff subdir_pattern (when given) equals the whole list of pattern names, sub_dir_pattern is absent, and scope is given with a path; every failure is InvalidQueryException, and a differing subdir_pattern raises the pattern message |
| PdfsDir.ValidateSourceRejectsEveryPattern | colrev/ops/built_in/search_sources/pdfs_dir.py:401-410 | as written, every single pattern name, "year" included, is rejected |
| PdfsDir.ValidateSourceCorrected | colrev/ops/built_in/search_sources/pdfs_dir.py:401-427 | corrected, validation passes iff subdir_pattern (when given) is one of NA, volume_number, year and volume, with the other checks as before |
| PdfsDir.ValidateSourceCorrectedAcceptsListed | colrev/ops/built_in/search_sources/pdfs_dir.py:401-427 | corrected, a listed pattern leaves the outcome to the remaining checks |
| PdfsDir.ValidateSourceVersionsAgree | colrev/ops/built_in/search_sources/pdfs_dir.py:401-427 | without a subdir_pattern parameter both versions agree |
| PdfsDir.Heuristic | colrev/ops/built_in/search_sources/pdfs_dir.py:652-664 | the confidence is 1.0 exactly for a .pdf file whose backward-search heuristic result is empty (false), and 0.0 otherwise |
| PdfsDir.LookupSetItem | colrev/ops/built_in/search_sources/pdfs_dir.py:437-441 | setting an item of the record dict changes that key and only that key |
| PdfsDir.MdPartsIgnoresExcluded | colrev/ops/built_in/search_sources/pdfs_dir.py:437-440 | ID, grobid-version and file never enter md_string, so setting one of them leaves its parts unchanged |
| PdfsDir.AddMdString | colrev/ops/built_in/search_sources/pdfs_dir.py:429-442 | reading the file path raises KeyError("file") exactly when the record has no file |
| PdfsDir.AddMdStringSets | colrev/ops/built_in/search_sources/pdfs_dir.py:429-442 | md_string becomes the file size (or NOT_FOUND) followed by the ","-join of "k:v" over the other items, and every other item stays as it was |
| PdfsDir.MdStringIgnoresFileAndId | colrev/ops/built_in/search_sources/pdfs_dir.py:429-442 | two copies of a PDF that differ only in path and ID get the same md_string |
| PdfsDir.PrunedIsWithout | colrev/ops/built_in/search_sources/pdfs_dir.py:192-196 | for an origin list without repeats, removing each origin to remove keeps exactly the origins that are not to be removed, in order |
| PdfsDir.PrunedRecordsKeeps | colrev/ops/built_in/search_sources/pdfs_dir.py:192-203 | a record (with distinct origins) is kept exactly when one of its origins is not to be removed |
| PdfsDir.RemoveOrigins | colrev/ops/built_in/search_sources/pdfs_dir.py:194-196 | the loop over the origins to remove computes the pruned origin list |
| PdfsDir.PruneOrigins | colrev/ops/built_in/search_sources/pdfs_dir.py:192-203 | every record's origins are pruned and the records left without origins are dropped |
| PdfsDir.PdfRecord.constructor | colrev/ops/built_in/search_sources/pdfs_dir.py:803-805 | the record holds the given dict |
| PdfsDir.KeptParts | colrev/ops/built_in/search_sources/pdfs_dir.py:224 | the parts pathlib keeps are exactly the parts of the path that are neither empty nor "." |
| PdfsDir.Parent | colrev/ops/built_in/search_sources/pdfs_dir.py:224 | Path(file).parents[0] is missing (IndexError) exactly when every slash-separated part of the path is empty or "." (so for "", ".", "/" and "./") |
| PdfsDir.ParentOfFileInDir | colrev/ops/built_in/search_sources/pdfs_dir.py:224 | the parent of dir/name is dir, for any relative dir without empty or "." parts and any plain file name |
| PdfsDir.ParentOfRoot | colrev/ops/built_in/search_sources/pdfs_dir.py:224 | "/" has no parent, so it raises IndexError |
| PdfsDir.ParentDropsTrailingSlash | colrev/ops/built_in/search_sources/pdfs_dir.py:224 | the parent of "a/" is ".", because the trailing slash is dropped |
| PdfsDir.ParentDropsDotParts | colrev/ops/built_in/search_sources/pdfs_dir.py:224 | the parent of ./dir//name is dir: "." parts and doubled slashes vanish |
| PdfsDir.ParentKeepsDoubleSlashRoot | colrev/ops/built_in/search_sources/pdfs_dir.py:224 | the parent of //dir/name is //dir: two leading slashes stay a root of their own |
| PdfsDir.VolumeNumberAtIsPattern | colrev/ops/built_in/search_sources/pdfs_dir.py:86 | the greedy reading matches ([0-9]{1,3})(_\|/)([0-9]{1,2}) at a position exactly when the regular expression can match there |
| PdfsDir.DigitGroup | colrev/ops/built_in/search_sources/pdfs_dir.py:84-88 | a digit group has at most the allowed number of characters, all of them digits |
| PdfsDir.Leftmost | colrev/ops/built_in/search_sources/pdfs_dir.py:229-250 | re.search finds the first position, from the start on, where the pattern matches, or none when no position matches |
| PdfsDir.ScopeFieldsSet | colrev/ops/built_in/search_sources/pdfs_dir.py:213-219 | a journal scope sets journal and ENTRYTYPE article; a conference scope sets booktitle and ENTRYTYPE inproceedings, and wins the ENTRYTYPE; without either the dict is unchanged |
| PdfsDir.PatternYear | colrev/ops/built_in/search_sources/pdfs_dir.py:226-232 | the year pattern sets year to the leftmost four-digit run starting with 1 to 3, or changes nothing when there is none |
| PdfsDir.PatternVolumeNumber | colrev/ops/built_in/search_sources/pdfs_dir.py:234-247 | a volume/number match sets both; without one, number is untouched and volume is set from the first run of up to three digits, if there is any |
| PdfsDir.DirUpdateUnset | colrev/ops/built_in/search_sources/pdfs_dir.py:210-221 | without a configured pattern the (always truthy) compiled pattern still lets the scope apply, but nothing is read from the directory |
| PdfsDir.UpdateFieldsBasedOnPdfDirs | colrev/ops/built_in/search_sources/pdfs_dir.py:207-255 | the record dict becomes the specified directory update, which raises on a missing file or parent |
| PdfsDir.TitleSuffixEffect | colrev/ops/built_in/search_sources/pdfs_dir.py:771-779 | a title ending in " 1" loses those two characters unless it ends with "Formula 1"; nothing else changes |
| PdfsDir.FourDigitTitleNoSuffix | colrev/ops/built_in/search_sources/pdfs_dir.py:776-777 | a title that is exactly four digits cannot end in " 1", so that test never decides anything |
| PdfsDir.FixTitleSuffix | colrev/ops/built_in/search_sources/pdfs_dir.py:771-779 | the record's dict becomes the suffix-fixed dict |
| PdfsDir.ContainsHasChar | colrev/ops/built_in/search_sources/pdfs_dir.py:743-769 | a text that holds a pattern holds each of its characters |
| PdfsDir.ApplyFixesWithoutAccents | colrev/ops/built_in/search_sources/pdfs_dir.py:746-756 | a chain of replacements, each of whose patterns has an accent, leaves a text without accents unchanged |
| PdfsDir.FixCharsWithoutAccents | colrev/ops/built_in/search_sources/pdfs_dir.py:743-769 | a title or author without a spacing accent is left as it is |
| PdfsDir.FixSpecialChars | colrev/ops/built_in/search_sources/pdfs_dir.py:743-769 | the record's dict becomes the one with the title and author replacements applied |
| PdfsDir.StripOutletSuffix | colrev/ops/built_in/search_sources/pdfs_dir.py:797-800 | a stripped title is a prefix of the title |
| PdfsDir.StripOutletSuffixShape | colrev/ops/built_in/search_sources/pdfs_dir.py:797-800 | after a suffix is cut, the title does not end in one of " -:", and only those characters lay between it and the suffix |
| PdfsDir.OutletTitle | colrev/ops/built_in/search_sources/pdfs_dir.py:789-800 | the suffixes are tried in list order, each on what the previous ones left, and the result is a prefix of the title |
| PdfsDir.OutletTitleUnmatched | colrev/ops/built_in/search_sources/pdfs_dir.py:789-800 | a title that matches none of the suffixes stays as it is |
| PdfsDir.SpecialOutletsFixed | colrev/ops/built_in/search_sources/pdfs_dir.py:781-800 | KeyError("title") exactly for one of the four IS conferences without a title; other booktitles leave the dict unchanged, and only the title can change |
| PdfsDir.FixSpecialOutlets | colrev/ops/built_in/search_sources/pdfs_dir.py:781-800 | the record's dict becomes the outlet-fixed dict, or stays unchanged when that raises |
| PdfsDir.StripSuffix | colrev/ops/built_in/search_sources/pdfs_dir.py:797-800 | one suffix: the title loses the suffix and the " -:" before it exactly when its lower-cased form ends with the suffix, and no other field changes |
| PdfsDir.RecaseFields | colrev/ops/built_in/search_sources/pdfs_dir.py:808-811 | the record's dict becomes the recased dict |
| PdfsDir.RemoveVenueTitle | colrev/ops/built_in/search_sources/pdfs_dir.py:820-834 | the record's dict becomes the one with the title removed when its `str.lower()` (a parameter) equals the journal or the booktitle |
| PdfsDir.Prepare | colrev/ops/built_in/search_sources/pdfs_dir.py:803-839 | prepare's outcome and record are the specified composition of the steps in source order |
| PdfsDir.PrepareRemovesJournalTitle | colrev/ops/built_in/search_sources/pdfs_dir.py:820-827 | a title whose `str.lower()` equals the journal is removed and the status becomes md_needs_manual_preparation |
| PdfsDir.PrepareRemovesBooktitleTitle | colrev/ops/built_in/search_sources/pdfs_dir.py:828-834 | a title whose `str.lower()` equals the booktitle is removed and the status becomes md_needs_manual_preparation |
| PdfsDir.PrepareFails | colrev/ops/built_in/search_sources/pdfs_dir.py:781-837 | prepare raises exactly for one of the listed conferences whose record has no title at that point, with KeyError("title") |
| PdfsDir.RecasedKeeps | colrev/ops/built_in/search_sources/pdfs_dir.py:808-811 | recasing touches only title, journal, booktitle and author |
| PdfsDir.VenueTitleRemovedKeeps | colrev/ops/built_in/search_sources/pdfs_dir.py:820-834 | the venue check touches only the title and the status |
| PdfsDir.FixesKeep | colrev/ops/built_in/search_sources/pdfs_dir.py:743-779 | the title-suffix and character fixes touch only the title and the author |
| PdfsDir.PreparedFromBefore | colrev/ops/built_in/search_sources/pdfs_dir.py:837 | the outlet fix changes nothing but the title |
| PdfsDir.BeforeOutletsKeeps | colrev/ops/built_in/search_sources/pdfs_dir.py:808-836 | the steps before the outlet fix touch only title, journal, booktitle, author and the status |
| PdfsDir.PrepareKeepsOtherKeys | colrev/ops/built_in/search_sources/pdfs_dir.py:803-839 | every key other than title, journal, booktitle, author and the status comes out of prepare unchanged |
| ScreenCli.NextAnswer | colrev/ops/built_in/screen/screen_cli.py:95-118 | the prompt settles on the first line that is y, n, q or s, after reading exactly up to it; when no line is an answer, input raises EOFError |
| ScreenCli.NextAnswerNone | colrev/ops/built_in/screen/screen_cli.py:95-110 | lines that hold no answer end the prompt with EOFError |
| ScreenCli.NextAnswerAt | colrev/ops/built_in/screen/screen_cli.py:95-118 | the prompt's answer is the first answer line, and the lines read end there |
| ScreenCli.LabelOfAnswer | colrev/ops/built_in/screen/screen_cli.py:124 | "y" becomes "in" and "n" becomes "out" |
| ScreenCli.CriteriaRound | colrev/ops/built_in/screen/screen_cli.py:93-125 | the criteria loop reads no more lines than there are; without a stop every criterion gets a decision, and a stop is quit or skip |
| ScreenCli.CriteriaRoundStops | colrev/ops/built_in/screen/screen_cli.py:119-122 | once the criteria loop has stopped or failed, later criteria change nothing |
| ScreenCli.CriteriaRoundOnAnswers | colrev/ops/built_in/screen/screen_cli.py:93-125 | on lines that are all answers the criteria loop is the direct reading, one line per criterion |
| ScreenCli.CriteriaRoundAnswerStep | colrev/ops/built_in/screen/screen_cli.py:93-125 | one more criterion, answered by its own line after no stop, extends the loop's result |
| ScreenCli.StopStep | colrev/ops/built_in/screen/screen_cli.py:111-122 | a "q" or "s" line ends the round with quit or skip, keeping the decisions so far |
| ScreenCli.DecideStep | colrev/ops/built_in/screen/screen_cli.py:116-125 | a "y" or "n" line appends the criterion with its in/out label |
| ScreenCli.Entries | colrev/ops/built_in/screen/screen_cli.py:127-130 | there is one "name=decision" entry, without spaces, per decision |
| ScreenCli.RemoveCharConcat | colrev/ops/built_in/screen/screen_cli.py:130 | removing spaces distributes over concatenation |
| ScreenCli.RemoveCharKeeps | colrev/ops/built_in/screen/screen_cli.py:130 | a character other than the space survives the removal |
| ScreenCli.PieceNotEmpty | colrev/ops/built_in/screen/screen_cli.py:129 | an entry holds its "=" and so is never empty once spaces are removed |
| ScreenCli.RemoveCharSemicolon | colrev/ops/built_in/screen/screen_cli.py:129-130 | removing spaces keeps the ";" before each entry |
| ScreenCli.EntriesSnoc | colrev/ops/built_in/screen/screen_cli.py:128-129 | the entries of one more decision are the entries so far and its own |
| ScreenCli.PrefixedWithoutSpaces | colrev/ops/built_in/screen/screen_cli.py:127-130 | without spaces, c_field is ";" before each entry, that is ";" followed by the entries joined with ";" |
| ScreenCli.CriteriaFieldIsJoin | colrev/ops/built_in/screen/screen_cli.py:127-130 | the screening_criteria field is the "name=decision" entries joined with ";", with every space removed and no leading ";" (when the first name does not itself start with ";") |
| ScreenCli.JoinStartsWithFirst | colrev/ops/built_in/screen/screen_cli.py:130 | a join starts with its first part |
| ScreenCli.WithoutCriteria | colrev/ops/built_in/screen/screen_cli.py:149-190 | a record screened without criteria carries "NA" as its screening criteria |
| ScreenCli.FirstStop | colrev/ops/built_in/screen/screen_cli.py:111-122 | the first of the first n lines that is "q" or "s", or none when no such line exists |
| ScreenCli.Labelled | colrev/ops/built_in/screen/screen_cli.py:124-125 | one labelled decision per criterion |
| ScreenCli.WithCriteriaOnAnswers | colrev/ops/built_in/screen/screen_cli.py:83-147 | on lines that are all answers: without a "q" or "s" among the first lines the record is screened, included iff every answer is "y" and with the joined criteria field; otherwise the first "q" or "s" decides quit or skip after reading up to it |
| ScreenCli.LabelledAllIn | colrev/ops/built_in/screen/screen_cli.py:124-132 | with every criterion answered "y" or "n", all labels are "in" exactly when all answers are "y" |
| ScreenCli.RecordVerdictUsed | colrev/ops/built_in/screen/screen_cli.py:192-233 | a record's verdict never reads more lines than there are |
| ScreenCli.Advance | colrev/ops/built_in/screen/screen_cli.py:256-268 | one item reads lines forward only, shows at most one record, and logs at most one screening per record shown |
| ScreenCli.Screen | colrev/ops/built_in/screen/screen_cli.py:256-268 | the item loop reads no more lines than there are, shows at most one record per item, and screens at most the records it shows |
| ScreenCli.ScreenOnlySplit | colrev/ops/built_in/screen/screen_cli.py:257-258 | only items whose ID is in the split are screened |
| ScreenCli.ScreenEmptySplit | colrev/ops/built_in/screen/screen_cli.py:256-258 | an empty split screens nothing, shows nothing and reads no line |
| ScreenCli.ScreenStops | colrev/ops/built_in/screen/screen_cli.py:266-268 | once quit is answered or an error is raised, later items change nothing |
| ScreenCli.SkipContinues | colrev/ops/built_in/screen/screen_cli.py:264-265 | a skipped item is shown but not screened, and the loop goes on |
| ScreenCli.ScreenStep | colrev/ops/built_in/screen/screen_cli.py:256-268 | the loop after one more item is that item's step applied to the loop so far, when the loop had neither stopped nor failed |
| ScreenCli.Screener.constructor | colrev/ops/built_in/screen/screen_cli.py:31-43 | a new screener has shown no record and holds the whole input |
| ScreenCli.Screener.ReadLine | colrev/ops/built_in/screen/screen_cli.py:103-110 | input() consumes the next line, and raises EOFError when there is none |
| ScreenCli.Screener.ReadAnswer | colrev/ops/built_in/screen/screen_cli.py:95-118 | the prompt loop returns the prompt's answer and consumes exactly the lines it reads |
| ScreenCli.Screener.AskCriteria | colrev/ops/built_in/screen/screen_cli.py:93-125 | the criteria loop returns the round's stop and decisions and consumes its lines |
| ScreenCli.Screener.AskOne | colrev/ops/built_in/screen/screen_cli.py:94-125 | one criterion: reading stops at the first y, n, q or s; q and s stop the loop with quit or skip and keep the decisions, y and n append the criterion with its in/out label, end of input is EOFError; exactly the lines up to that answer are consumed |
| ScreenCli.Screener.ScreenWithCriteria | colrev/ops/built_in/screen/screen_cli.py:83-147 | __screen_record_with_criteria returns the specified verdict and consumes its lines |
| ScreenCli.Screener.BuildCriteriaField | colrev/ops/built_in/screen/screen_cli.py:127-130 | the c_field loop and its clean-up compute the criteria field |
| ScreenCli.Screener.AllInLoop | colrev/ops/built_in/screen/screen_cli.py:132 | the inclusion is true iff every decision is "in" |
| ScreenCli.Screener.ScreenWithoutCriteria | colrev/ops/built_in/screen/screen_cli.py:149-190 | __screen_record_without_criteria returns the specified verdict and consumes its lines |
| ScreenCli.Screener.ScreenRecord | colrev/ops/built_in/screen/screen_cli.py:192-233 | the counter of shown records goes up by one; the verdict is the criteria or no-criteria verdict; a screened record keeps its own fields, since an abstract taken from the TEI document is removed again |
| ScreenCli.Screener.ScreenItem | colrev/ops/built_in/screen/screen_cli.py:256-268 | one pass of the item loop advances the log, the quit flag, the input and the shown counter as specified |
| ScreenCli.Screener.RunScreen | colrev/ops/built_in/screen/screen_cli.py:235-283 | __screen_cli returns the specified screenings and commit decision |
| ScreenCli.Screener.Finish | colrev/ops/built_in/screen/screen_cli.py:270-283 | no tasks means no commit; while records remain in a non-empty split, the commit is made iff the next line is "y" (EOFError when there is none); otherwise the commit is made |
| Dblp.VenueKeyIsMiddle | colrev/ops/built_in/search_sources/dblp.py:204-206 | for a key like journals/misq/Smith20 the venue key is the middle component |
| Dblp.RetypeWithdrawn | colrev/ops/built_in/search_sources/dblp.py:196-200 | a withdrawn item whose key starts with "journals" becomes a journal article, one starting with "conf" a conference paper, and any other keeps its type |
| Dblp.AuthorString | colrev/ops/built_in/search_sources/dblp.py:237-247 | a single author dict gives its text, and KeyError("text") when it has none; a list gives the texts of its dicts that have one, joined with " and " |
| Dblp.AuthorTexts | colrev/ops/built_in/search_sources/dblp.py:241-246 | no more texts than entries |
| Dblp.AuthorTextsAreTheTexts | colrev/ops/built_in/search_sources/dblp.py:241-246 | every text taken comes from a dict entry that has it, and every such entry contributes |
| Dblp.CleanTitle | colrev/ops/built_in/search_sources/dblp.py:227 | the cleaned title is a prefix of the title |
| Dblp.CleanTitleEnd | colrev/ops/built_in/search_sources/dblp.py:227 | the cleaned title never ends in whitespace, and ends in a dot only if whitespace followed that dot |
| Dblp.CleanTitleKeepsDotBeforeSpace | colrev/ops/built_in/search_sources/dblp.py:227 | stripping dots before whitespace keeps a dot that whitespace follows: "Title. " becomes "Title." |
| Dblp.TypeFields | colrev/ops/built_in/search_sources/dblp.py:195-225 | the warning is set iff the item is withdrawn; journal articles get ENTRYTYPE article and the journal venue of the key, conference papers inproceedings and the booktitle venue; other types get no ENTRYTYPE |
| Dblp.TypeFieldsOnly | colrev/ops/built_in/search_sources/dblp.py:195-225 | the type stage sets nothing but the warning, the ENTRYTYPE, journal and booktitle |
| Dblp.CopyFields | colrev/ops/built_in/search_sources/dblp.py:226-235 | the title is cleaned of trailing dots and whitespace, and pages get "--" for every "-" |
| Dblp.CopyFieldsPlain | colrev/ops/built_in/search_sources/dblp.py:228-233 | year, volume and number are copied as they are |
| Dblp.CopyFieldsKeeps | colrev/ops/built_in/search_sources/dblp.py:226-235 | the copy stage keeps every other field |
| Dblp.LinkFields | colrev/ops/built_in/search_sources/dblp.py:253-260 | dblp_key is the record url plus the key, the doi is upper-cased, and url is ee unless ee is a doi.org link |
| Dblp.LinkFieldsKeeps | colrev/ops/built_in/search_sources/dblp.py:253-260 | the link stage changes nothing but dblp_key, doi and url |
| Dblp.LinkFieldsAdds | colrev/ops/built_in/search_sources/dblp.py:253-260 | dblp_key appears iff the item has a key, and url iff ee is not a doi.org link |
| Dblp.AuthorField | colrev/ops/built_in/search_sources/dblp.py:236-251 | the author field is set exactly when the item names authors |
| Dblp.AuthorFieldKeeps | colrev/ops/built_in/search_sources/dblp.py:236-251 | the author stage changes nothing but the author field |
| Dblp.FillFails | colrev/ops/built_in/search_sources/dblp.py:195-260 | the conversion raises exactly when the type is missing, a keyed type lacks its key, or a single author has no text |
| Dblp.FillTypeFields | colrev/ops/built_in/search_sources/dblp.py:196-225 | a converted item carries the withdrawal warning iff it was withdrawn, with the ENTRYTYPE and venue of its effective type |
| Dblp.FillCopiedFields | colrev/ops/built_in/search_sources/dblp.py:226-235 | a converted item carries the cleaned title, the pages with "--" and the plain fields as they were |
| Dblp.FillLinkFields | colrev/ops/built_in/search_sources/dblp.py:236-260 | a converted item never carries the raw key; dblp_key, doi, url and author are present exactly as the item provides them |
| Dblp.Cleaned | colrev/ops/built_in/search_sources/dblp.py:262-265 | cleaning keeps the keys of the record |
| Dblp.CleanedHasNoBraces | colrev/ops/built_in/search_sources/dblp.py:262-265 | no value of a cleaned record holds a brace |
| Dblp.CleanValues | colrev/ops/built_in/search_sources/dblp.py:262-265 | the loop rewrites every value as specified |
| Dblp.DblpJsonToDict | colrev/ops/built_in/search_sources/dblp.py:182-267 | __dblp_json_to_dict returns the converted and cleaned record, or the error of the conversion |
| Dblp.DropNonWord | colrev/ops/built_in/search_sources/dblp.py:287 | word characters are those of a parameter standing for Unicode `\w`; the text from its first word character on: a suffix whose dropped part holds no word character |
| Dblp.CollapseNonWord | colrev/ops/built_in/search_sources/dblp.py:287 | a non-empty text stays non-empty and keeps whether it starts with a word character |
| Dblp.WordCharsOfDropped | colrev/ops/built_in/search_sources/dblp.py:287 | dropping leading non-word characters keeps all word characters |
| Dblp.CollapseNonWordChars | colrev/ops/built_in/search_sources/dblp.py:287 | the collapsed text holds only word characters and spaces |
| Dblp.CollapseNonWordSingleSpaces | colrev/ops/built_in/search_sources/dblp.py:287 | the collapsed text never holds two spaces in a row |
| Dblp.CollapseNonWordKeepsWordChars | colrev/ops/built_in/search_sources/dblp.py:287 | for any `\w` that holds "_" and not the space, collapsing keeps the word characters, in order |
| Dblp.CollapseKeepsWords | colrev/ops/built_in/search_sources/dblp.py:287 | a text made only of word characters is left as it is |
| Dblp.QueryOfWords | colrev/ops/built_in/search_sources/dblp.py:287 | for any `\w` that holds "_" and not the space or "+", a query of words separated by spaces becomes the words joined by "_" |
| Dblp.QueryUrl | colrev/ops/built_in/search_sources/dblp.py:286-288 | the search url starts with the api prefix and ends with &format=json |
| Dblp.QueryUrlPart | colrev/ops/built_in/search_sources/dblp.py:287-288 | for any `\w` that holds "_" and not the space or "+", the query part of the url holds only word characters and "+", never two "+" in a row, and the word characters of the query with its spaces made "_", in order |
| Dblp.Retrieved | colrev/ops/built_in/search_sources/dblp.py:318-321 | a retrieved record loses pages and keeps every other field |
| Dblp.ConvertItems | colrev/ops/built_in/search_sources/dblp.py:306-314 | the comprehension succeeds iff every hit converts, and then holds each conversion in order |
| Dblp.DropPages | colrev/ops/built_in/search_sources/dblp.py:318-324 | the loop succeeds iff every record has a dblp_key (KeyError otherwise), and then returns each record without pages |
| Dblp.RetrieveRecords | colrev/ops/built_in/search_sources/dblp.py:299-333 | no hits gives no records; success gives one retrieved record per hit; a failure means that some hit does not convert or has no dblp_key |
| Dblp.ValidateSource | colrev/ops/built_in/search_sources/dblp.py:335-377 | validation passes iff the source identifier is right, a scope has venue_key and journal_abbreviated, a query without a scope starts with the api url, and a source with neither is an md source; a bad query fails the assertion |
| Dblp.ValidateSourceOrder | colrev/ops/built_in/search_sources/dblp.py:346-372 | a wrong identifier is reported first, whatever the parameters, and a scope is checked before any query |
| Dblp.Heuristic | colrev/ops/built_in/search_sources/dblp.py:598-607 | the confidence is 1.0 iff the data holds the DBLP bibsource line, and 0.0 otherwise |
| EuropePmc.LastText | colrev/ops/built_in/search_sources/europe_pmc.py:120-124 | the text taken for a tag is "" or the text of some child with that tag, and "" when no child has the tag |
| EuropePmc.LastTextIsLast | colrev/ops/built_in/search_sources/europe_pmc.py:120-124 | when several children carry the tag, the text of the last of them wins |
| EuropePmc.GetStringFromItem | colrev/ops/built_in/search_sources/europe_pmc.py:120-124 | the loop over the children returns the text of the last child with the tag |
| EuropePmc.XmlToRecord | colrev/ops/built_in/search_sources/europe_pmc.py:127-185 | the converted record holds no epmc_id or epmc_source field and no empty value |
| EuropePmc.XmlToRecordIds | colrev/ops/built_in/search_sources/europe_pmc.py:127-172 | the converted record is an article whose europe_pmc_id and ID are both the source text, "/", and the id text |
| EuropePmc.XmlToRecordTitle | colrev/ops/built_in/search_sources/europe_pmc.py:140-177 | the record has a title exactly when the item has a non-empty title text, and then it is that text |
| EuropePmc.ConvertAllAt | colrev/ops/built_in/search_sources/europe_pmc.py:250-251 | converting a result list converts each result item on its own, in order |
| EuropePmc.MostSimilar | colrev/ops/built_in/search_sources/europe_pmc.py:249-273 | the kept candidate has a title and strictly the highest similarity seen first; every titled candidate is at most as similar; nothing is kept, with similarity 0, exactly when no titled candidate scores above 0 |
| EuropePmc.FirstResult | colrev/ops/built_in/search_sources/europe_pmc.py:310-320 | the retry loop yields the result of some attempt within the retry budget, or nothing when every attempt came back empty |
| EuropePmc.GetMasterdata | colrev/ops/built_in/search_sources/europe_pmc.py:295-368 | a title of at most 35 characters leaves the record unchanged; a longer one with no retries fails with the unbound retrieved_records; a non-empty retrieved record more similar than the threshold whose merge succeeds is merged in, and any changed record is such a merge |
| EuropePmc.NothingSimilarKeepsRecord | colrev/ops/built_in/search_sources/europe_pmc.py:322-325 | an empty retrieved record leaves the record unchanged |
| EuropePmc.Heuristic | colrev/ops/built_in/search_sources/europe_pmc.py:516-527 | confidence is 1 exactly when the data mentions europe_pmc_id or has at least as many europepmc.org links as entries, and 0 otherwise |
| EuropePmc.LinkWithoutEntriesIsRecognised | colrev/ops/built_in/search_sources/europe_pmc.py:523-525 | data with a europepmc.org link and no entry is recognised with confidence 1 |
| EuropePmc.AddEndpoint | colrev/ops/built_in/search_sources/europe_pmc.py:530-556 | a host not ending in europepmc.org raises NotImplementedError; otherwise the source is colrev.europe_pmc with the query moved from the web search prefix to the REST search prefix |
| EuropePmc.AddEndpointSwapsPrefix | colrev/ops/built_in/search_sources/europe_pmc.py:538-545 | a web search URL becomes the REST search URL with the same query |
| EuropePmc.ValidateSource | colrev/ops/built_in/search_sources/europe_pmc.py:370-388 | a source is valid exactly when its search parameters hold a query, and otherwise raises InvalidQueryException |
| EuropePmc.Prepare | colrev/ops/built_in/search_sources/europe_pmc.py:568-574 | the record comes back unchanged when it has author and title (the stripped strings are discarded), and a missing author raises KeyError |
| OpenAlex.AuthorStringIsJoin | colrev/ops/built_in/search_sources/open_alex.py:94-107 | the author text is the formatted display names of the authorships that have an author with a display name, joined with " and ", and it is empty exactly when no authorship counts |
| OpenAlex.SetAuthorFromItem | colrev/ops/built_in/search_sources/open_alex.py:94-109 | the loop over the authorships stores the joined names as author when they are not empty and leaves the record alone otherwise |
| OpenAlex.ParseItemToRecord | colrev/ops/built_in/search_sources/open_alex.py:111-156 | the step-by-step filling of the record dict computes the conversion whose fields the Parsed lemmas describe |
| OpenAlex.ParsedFails | colrev/ops/built_in/search_sources/open_alex.py:147-150 | the conversion fails, with KeyError("pages"), exactly when the work has a last page but no first page |
| OpenAlex.ParsedIdAndTitle | colrev/ops/built_in/search_sources/open_alex.py:113-117 | the openalex_id is the id without the OpenAlex prefix; the title is "" when absent, dropped when null, and the work's title otherwise |
| OpenAlex.ParsedTypeAndJournal | colrev/ops/built_in/search_sources/open_alex.py:118-160 | a journal article becomes an article and anything else misc; a journal is kept only for an article whose source is present and is not PubMed |
| OpenAlex.ParsedDoi | colrev/ops/built_in/search_sources/open_alex.py:135-139 | the doi is the upper-cased doi without the resolver prefix, present exactly when the work has one; retracted is set exactly for a retracted work |
| OpenAlex.ParsedYearCitations | colrev/ops/built_in/search_sources/open_alex.py:130-141 | the year, when present, and the citation count are their decimal text |
| OpenAlex.ParsedPages | colrev/ops/built_in/search_sources/open_alex.py:143-150 | pages is present exactly with a first page, and is the first page followed by "--" and the last page when there is one; volume and number are present exactly when the biblio has them |
| OpenAlex.ParsedAuthor | colrev/ops/built_in/search_sources/open_alex.py:152 | the record carries the joined author text exactly when it is not empty |
| OpenAlex.ParsedLanguage | colrev/ops/built_in/search_sources/open_alex.py:161-164 | the language is kept as its unified code, and removed when the work has none or the language service rejects it |
| OpenAlex.GetMasterdata | colrev/ops/built_in/search_sources/open_alex.py:166-222 | a record without openalex_id comes back unchanged; a work with a last page but no first page cannot be converted and raises ValueError, because the finally clause then releases the lock that was never acquired; a converted work whose merge succeeds is merged in, and any changed record is such a merge |
| OpenAlex.Heuristic | colrev/ops/built_in/search_sources/open_alex.py:280-285 | OpenAlex never recognises a file: the confidence is always 0 |
| OpenAlex.AddEndpoint | colrev/ops/built_in/search_sources/open_alex.py:288-295 | OpenAlex cannot be added from a query: every query raises PackageParameterError |
| PdfPrepMan.Pending | colrev/ops/pdf_prep_man.py:59-65 | the records to prepare are exactly the stored records in pdf_needs_manual_preparation |
| PdfPrepMan.GetData | colrev/ops/pdf_prep_man.py:41-70 | an empty store fails with ValueError; otherwise the task count is the number of records in pdf_needs_manual_preparation, the items are those records, and the PAD is exactly the longest ID plus 2, capped at 40 |
| PdfPrepMan.LStripAll | colrev/ops/pdf_prep_man.py:110-111 | each ","-piece of the note is left-stripped of whitespace |
| PdfPrepMan.Rows | colrev/ops/pdf_prep_man.py:113-114 | one crosstab row per hint, pairing the record's journal with the left-stripped hint |
| PdfPrepMan.EntryTypeCounts | colrev/ops/pdf_prep_man.py:90-103 | the ENTRYTYPE statistics count, per type, exactly the records in pdf_needs_manual_preparation, and list no type without such a record |
| PdfPrepMan.HintsAccumulate | colrev/ops/pdf_prep_man.py:88-111 | the hint list holds the file-note hints of all records in pdf_needs_manual_preparation, in order |
| PdfPrepMan.NoteHints | colrev/ops/pdf_prep_man.py:108-111 | the loop over the pieces of a record's file note appends that record's hints |
| PdfPrepMan.AppendRows | colrev/ops/pdf_prep_man.py:113-114 | the loop over the hints appends one row per hint to the crosstab |
| PdfPrepMan.PdfPrepManStats | colrev/ops/pdf_prep_man.py:76-114 | the statistics loop computes the type counts, hints and crosstab described by the lemmas above, or the KeyError of the first record that lacks a field |
| PdfPrepMan.StatsStops | colrev/ops/pdf_prep_man.py:90-114 | once a record raises a KeyError, the records after it do not matter |
| PdfPrepMan.AccumulatedHintsCounterexample | colrev/ops/pdf_prep_man.py:113-114 | with two records hinted a and b, the crosstab as written also files the first record's hint a under the second record's journal |
| PdfPrepMan.StatsPerRecordRows | colrev/ops/pdf_prep_man.py:113-114 | in the corrected statistics every crosstab row pairs a record's journal with one of that record's own hints |
| PdfPrepMan.PerRecordHintsOnSameInput | colrev/ops/pdf_prep_man.py:113-114 | on the same two records the corrected crosstab files a under the first journal and b under the second only |
| PdfPrepMan.StatsVersionsAgreeOnTypes | colrev/ops/pdf_prep_man.py:98-103 | the correction changes only the crosstab: both versions count the entry types alike |
| PdfPrepMan.Extract | colrev/ops/pdf_prep_man.py:140-190 | nothing is written when the csv or bib export already exists; otherwise the records in pdf_needs_manual_preparation are exported, with one csv row of the ten columns per record |
| PdfPrepMan.ExtractNa | colrev/ops/pdf_prep_man.py:185-188 | a csv column is filled with "NA" exactly when no exported record has that field, and otherwise holds each record's value |
| PdfPrepMan.UpdatedFieldsEffect | colrev/ops/pdf_prep_man.py:220-229 | an edited value that is NaN or "" removes the field, another text value sets it, and a field the row does not mention keeps its value |
| PdfPrepMan.ApplyRow | colrev/ops/pdf_prep_man.py:220-229 | the loop over the edited row's items, one key at a time, computes those updated fields |
| PdfPrepMan.Matching | colrev/ops/pdf_prep_man.py:213-217 | the edited rows that match a record are exactly those with the record's origin; a row without colrev_origin raises KeyError |
| PdfPrepMan.FindMatching | colrev/ops/pdf_prep_man.py:213-217 | the list comprehension over the edited rows collects those matches |
| PdfPrepMan.MatchingStops | colrev/ops/pdf_prep_man.py:213-217 | the first row without colrev_origin decides the error, whatever rows follow it |
| PdfPrepMan.MatchingErrAnyOrigin | colrev/ops/pdf_prep_man.py:213-217 | whether matching fails does not depend on which record's origin is looked for |
| PdfPrepMan.AppliedNeedsUniqueMatch | colrev/ops/pdf_prep_man.py:218-229 | a record is changed only when exactly one edited row matches it |
| PdfPrepMan.CsvRowsNeverMatch | colrev/ops/pdf_prep_man.py:196-217 | rows read back from the csv export carry their origin as text rather than as a list, so no record's origin ever matches them |
| PdfPrepMan.CsvRowsChangeNothing | colrev/ops/pdf_prep_man.py:196-229 | so edits made only in the csv export change no record |
| PdfPrepMan.ChangedRows | colrev/ops/pdf_prep_man.py:196-208 | the edited rows come from the bib export when it exists and the csv export otherwise; with neither the variable stays unbound, and the error is raised where the loop first reads it |
| PdfPrepMan.ApplyPdfPrepMan | colrev/ops/pdf_prep_man.py:193-231 | with no export the UnboundLocalError is raised only when the store holds a record (an empty store gives success); a row without colrev_origin in a non-empty store raises its error; in both error cases the records are unchanged; otherwise every stored record is replaced by its update from its unique match |
| Push.Mappings | colrev/ops/push.py:48-51 | the mapping has a key exactly for each source's origin prefix, and of two sources with one prefix the later one's endpoint wins |
| Push.BuildMappings | colrev/ops/push.py:48-51 | the dict comprehension over the sources builds that mapping |
| Push.FindFirst | colrev/ops/push.py:63 | the position str.find returns is the first occurrence of "/" |
| Push.PrefixShape | colrev/ops/push.py:63-65 | with a "/" the origin prefix is the text before the first "/"; without one, find returns -1 and the slice drops the origin's last character |
| Push.AddOrigins | colrev/ops/push.py:60-75 | adding one correction fails with KeyError exactly when one of its origin prefixes has no source, and adds no group under a prefix the sources do not know |
| Push.AddOriginsLists | colrev/ops/push.py:60-75 | the group of each prefix grows by one copy of the correction per origin with that prefix whose source is not colrev.unknown_source |
| Push.AppendOrigins | colrev/ops/push.py:60-75 | the loop over one correction's origins computes that addition |
| Push.AddOriginsStops | colrev/ops/push.py:60-66 | the first origin with an unknown prefix decides the KeyError, whatever origins follow it |
| Push.Collect | colrev/ops/push.py:45-77 | collecting fails exactly when some origin of some correction has a prefix no source has, and every group is under a known prefix |
| Push.CollectLists | colrev/ops/push.py:53-77 | the corrections grouped under a prefix are exactly its copies in encounter order, each prefix is listed once, and a prefix is listed exactly when it received a copy |
| Push.GetChangeSets | colrev/ops/push.py:45-77 | the loop over the corrections and, inside it, over their origins computes that grouping from the sources' mapping |
| Push.CollectStops | colrev/ops/push.py:55-66 | the first correction that raises the KeyError decides it, whatever corrections follow |
| Push.Prepared | colrev/ops/push.py:125-132 | the shared change list pairs each correction's original record with its changes, one entry per correction in order |
| Push.MailTextHeader | colrev/ops/push.py:136-149 | the mail opens with the DBLP "Send to" header exactly when the source is colrev.dblp |
| Push.MailTextParts | colrev/ops/push.py:136-149 | after the optional header the mail holds the greeting, the formatted corrections unchanged, and the closing, and nothing else |
| Push.FirstSource | colrev/ops/push.py:86-94 | the source taken for a prefix is a source with that prefix, and there is none exactly when no source has it |
| Push.Files | colrev/ops/push.py:155-157 | the files deleted after the DBLP mail are the correction files of the group, in order |
| Push.OnlyAppliesWithoutAllRecords | colrev/ops/push.py:105-120 | without all_records a group is only ever applied by the endpoint, never shared by mail |
| Push.CollectedHaveSources | colrev/ops/push.py:64-94 | every prefix that was collected has a source, so no group is skipped for want of one |
| Push.DispatchEveryGroup | colrev/ops/push.py:85-120 | with all_records and a source for every prefix, each group gives exactly one action, in the order its prefix was met, and an applied group carries that group's corrections |
| Push.PushEveryGroup | colrev/ops/push.py:79-120 | after collecting with all_records, every group is pushed once in encounter order, and an applied group carries exactly that prefix's corrections in encounter order |
| Push.PushGroups | colrev/ops/push.py:85-120 | the loop over the change sets produces those actions |
| Push.PushRecordCorrections | colrev/ops/push.py:79-120 | a KeyError while collecting stops the push; otherwise every collected group is dispatched as above |
| TemplatePrepMan.Origins | review_template/prep_man.py:61 | an entry always has at least one origin: its origin field split on ";", or "NA" when it has none |
| TemplatePrepMan.RFindSlash | review_template/prep_man.py:62 | str.rfind("/") finds the last "/" and is -1 exactly when there is none |
| TemplatePrepMan.OriginFileShape | review_template/prep_man.py:62-65 | with a "/" the origin's file is the text before the last "/"; without one the slice drops the last character, so the "NA" of an entry without origin becomes "N" |
| TemplatePrepMan.HintRows | review_template/prep_man.py:61-62 | one crosstab row per origin for a hint, pairing the origin's file with the hint |
| TemplatePrepMan.CrossMembership | review_template/prep_man.py:56-62 | a row is appended for an entry exactly when it pairs a hint that does not mention change-score with the file of one of the origins |
| TemplatePrepMan.AppendCross | review_template/prep_man.py:56-62 | the loops over the hints and, inside, over the origins append exactly those rows |
| TemplatePrepMan.TypeCounts | review_template/prep_man.py:34-51 | the overall counts count, per ENTRYTYPE, every entry not in md_imported, and the statistics count only the entries in md_needs_manual_preparation |
| TemplatePrepMan.CrosstabRows | review_template/prep_man.py:43-62 | a crosstab row comes from an entry in md_needs_manual_preparation and pairs one of its origin files with one of its non-change-score hints, and every such pair is a row |
| TemplatePrepMan.PrepManStats | review_template/prep_man.py:20-66 | the statistics loop computes those counts and rows, or the KeyError of the first entry lacking status or ENTRYTYPE |
| TemplatePrepMan.StatsStops | review_template/prep_man.py:34-51 | once an entry raises a KeyError, the entries after it do not matter |
| TemplatePrepMan.Selected | review_template/prep_man.py:103-107 | the exported entries are exactly those in md_needs_manual_preparation; an entry without status is a KeyError |
| TemplatePrepMan.GroupIds | review_template/prep_man.py:117-127 | grouping fails with ValueError exactly when some origin does not split on "/" into exactly a file and an id |
| TemplatePrepMan.GroupIdsLists | review_template/prep_man.py:122-127 | each file is grouped once, in the order first met, with exactly its ids in encounter order |
| TemplatePrepMan.GroupOrigins | review_template/prep_man.py:122-127 | the grouping loop over the origin list computes that grouping |
| TemplatePrepMan.GroupIdsStops | review_template/prep_man.py:123 | the first origin that does not unpack into file and id decides the ValueError |
| TemplatePrepMan.FindResult | review_template/prep_man.py:139 | a found search result is one of the file's results and has the id; lookup fails exactly when some result has no ID (KeyError) or none has the id (IndexError) |
| TemplatePrepMan.FileResults | review_template/prep_man.py:129-140 | a file's results are looked up id by id, one result with each id in order; a file not in the search directory is a FileNotFoundError |
| TemplatePrepMan.ExportsFind | review_template/prep_man.py:129-144 | each exported search file, in group order, holds for each id grouped under it a result with that id |
| TemplatePrepMan.ExportFiles | review_template/prep_man.py:129-144 | the loop over the groups produces those exports |
| TemplatePrepMan.ExportsStop | review_template/prep_man.py:129-140 | the first group whose file or id cannot be found decides the error |
| TemplatePrepMan.ExtractNeedsPrepMan | review_template/prep_man.py:96-146 | extracting selects the entries, groups their origins and exports each file's results, failing with the first error of those stages |
| TemplatePrepMan.TasksCount | review_template/prep_man.py:155-161 | the task count is the number of positions in the record state list whose state is md_needs_manual_preparation |
| TemplatePrepMan.Items | review_template/prep_man.py:167-169 | the items are exactly the entries whose status is md_needs_manual_preparation |
| TemplatePrepMan.GetData | review_template/prep_man.py:149-178 | an empty record state list is a ValueError; otherwise all_ids lists every ID in order, the PAD is exactly the longest ID plus 2 capped at 35, the task count is the number of records in md_needs_manual_preparation, and the items are the entries to prepare |
| TemplatePrepMan.Prepared | review_template/prep_man.py:186-187 | a prepared record has status md_prepared and metadata_source MAN_PREP and keeps every other field |
| TemplatePrepMan.PreparedIdempotent | review_template/prep_man.py:186-187 | preparing a record twice is preparing it once |
| TemplatePrepMan.ReplaceById | review_template/prep_man.py:190 | every stored entry with the record's ID is replaced by the record and the others are kept |
| TemplatePrepMan.RecordStore.UpdateRecordById | review_template/prep_man.py:190 | the store afterwards is the old store with the record's ID replaced |
| TemplatePrepMan.RecordStore.SetData | review_template/prep_man.py:181-190 | the record is marked prepared by MAN_PREP and written over the stored entries with its ID |
| TemplatePrepMan.SetDataMarksPrepared | review_template/prep_man.py:186-190 | after set_data every stored entry with the record's ID is in md_prepared with metadata_source MAN_PREP |

## Left out

- Network access: HTTP sessions, the DBLP venue lookup, Europe PMC page fetching and `nextPageUrl` paging, pyalex `Works()` and the DOI landing page. Each is a function parameter or an input value.
- Git: checkout, `iter_commits`, fetch and merge, `unmerged_blobs`, commits and `git add`. The commit history is input: a newest-first sequence of commits with their record snapshots, a log of commit messages, and a list of commits with their trees.
- PDF, GROBID and OCR work: TEI extraction, `index_pdf`, `pdf_backward_search`, `extract_coverpage`, `run_search` and `update_if_pdf_renamed` in the PDF directory source.
- Locks, timeouts and multiprocessing around the DBLP, Europe PMC and OpenAlex feeds, which are concurrency plumbing. The one place where a lock changes the outcome of a single call is modelled: OpenAlex's release of a lock it never acquired.
- PdfsDir.StripOutletSuffix: the suffix test lower-cases ASCII letters only, so a title whose Unicode lower case ends in the suffix through a non-ASCII letter (the Kelvin sign U+212A lower-cases to "k"; U+0130 lower-cases to two characters) is not stripped as `str.lower()` would.
- Dblp.LinkFields: the doi is upper-cased on ASCII letters only; `str.upper()` also maps other letters ("ß" becomes "SS").
- OpenAlex.ParsedDoi: the doi is upper-cased on ASCII letters only, as in Dblp.LinkFields.
- OpenAlex.GetMasterdata: an acquire that times out after 120 seconds, which also ends in a ValueError at the release, is left out, as are errors of the feed file I/O; the call is modelled as made with the lock free.
- Feed files, bib and CSV files, and pandas pivot tables. The model returns the rows and exports that would be written; existence checks are boolean inputs.
- Printing, logging and `input()` prompts. Answers are input sequences and an exhausted sequence is an EOFError.
- Floating-point similarity (`thefuzz`, `get_record_similarity`, `get_retrieval_similarity`) is an uninterpreted `real`-valued parameter. The Europe PMC weights 0.6/0.4 are inside that parameter.
- `html.unescape`, `urlparse`, `unquote`, `format_author_field`, the ISO 639-3 language service and the regex engine are parameters or small explicit recognisers. The `\w` class of the DBLP query (any Unicode letter, digit or "_") is a parameter of which the model uses only that "_" is a word character and the space and "+" are not. The PDF directory's year and volume patterns are written out for ASCII digits only.
- `dedupe_operation.apply_merges`, `prep_records` and the RecordState enum live outside the core. States are compared by name, `prep_records` is a parameter, and merges are returned as data.
- SimpleDedupe.GetDedupeData: when several headers are unreadable, only that some KeyError is raised is stated, not which key the first one names.
- SimpleDedupe.RunDedupe: the display of the pairs, the commits and `apply_merges` are left out; the store that `apply_merges` leaves is a parameter (the reloaded records), so the model states which IDs make the labelling fail but not how the merges remove them.
- Validate: `validate_properties` (it runs the test suite) is not modelled. With `properties` set the model returns no comparisons, as `main` does.
- Merge: the text of the diff report, the author names, saving the records and the statistics are left out.
- Dblp: `get_masterdata_from_dblp` and `run_search` are not modelled beyond the conversion and the query normalisation they use.
- EuropePmc: paging through result pages and the feed update in `get_masterdata` are left out. The retrieved record is merged through a parameter.
- OpenAlex: the keys `id`, `type`, `cited_by_count` and `biblio` of a work are assumed present. A present primary source is assumed to have a display name.
- PdfsDir: path normalisation, the recase parameter of `prepare` (its effect is a parameter) and the GROBID functions are left out.
- ScreenCli: the TEI abstract lookup is a parameter, and the PAD is not modelled. The criteria come as a sequence rather than from the settings' user input.
- PdfPrepMan: pandas NaN is a distinct cell value. List values at keys other than `colrev_origin`, the `colrev_status` default, and the uniqueness of IDs in the CSV export are not modelled; `extract_coverpage` and `main` are left out.
- Push: `load_packages` is reduced to whether a source's endpoint offers `apply_correction`. `pformat` is a parameter. The existence check before deleting a correction file and reading the JSON files are left out. The origin push of `__push_project` is git.
- TemplatePrepMan: `prep.drop_fields` is not modelled, because prep.py is not part of this model; `set_data` stores the record as updated. review_manager.py is not part of this model either: `read_next_record` is taken as a filter on the status and `update_record_by_ID` as a replacement by ID. The pivot table, printing, the unused `origins` list, bib writing and `notify` are left out.

## Findings

| source | as written | input that shows it | evidently intended | confidence | as-written member | corrected member |
|---|---|---|---|---|---|---|
| colrev/ops/pdf_prep_man.py:113-114 | the crosstab loop runs over all hints gathered so far, so each record's rows repeat the hints of every earlier record | two records in pdf_needs_manual_preparation with file notes "a" and "b": the second journal gets rows for a and b | each record contributes rows for its own hints only | not executed | PdfPrepMan.AccumulatedHintsCounterexample | PdfPrepMan.StatsPerRecordRows |
| colrev/ops/built_in/search_sources/pdfs_dir.py:401-410 | subdir_pattern is compared with `!=` to the whole list of allowed names, so any single name is rejected | search_parameters with subdir_pattern "year" | the pattern must be one of NA, volume_number, year, volume | not executed | PdfsDir.ValidateSourceRejectsEveryPattern | PdfsDir.ValidateSourceCorrectedAcceptsListed |
| colrev/ops/validate.py:99 | `";" in record["colrev_origin"]` tests whether some origin equals the string ";", so an ordinary merged record is never checked | a record with origins ["a.bib/1", "b.bib/2"] marked changed in the target commit | a record with more than one origin counts as merged | not executed | Validate.SemicolonTestMissesMergedRecord | Validate.MergedRecordComparisons |
| colrev/ops/validate.py:252-260 | scope "all" runs the preparation validation first, which deletes changed_in_target_commit from the shared records, so the merge validation skips every record and "all" reports nothing | scope "all" with any records whose preparation validation succeeds | the merge validation sees the records as loaded | not executed | Validate.AllScopeReportsNothing | Validate.RunValidationCorrected |
| colrev/ops/built_in/dedupe/simple_dedupe.py:245-265 | batch rows follow the store's order while the batch item's record follows the queue's, so the last row, which is dropped as the record itself, can be another record | a store with pending record A before processed record B: the queue is [B, A] and the batch for A ends with B | rows in queue order, so a batch ends with its own record | not executed | SimpleDedupe.StoreOrderBatchMisplacesRecord | SimpleDedupe.QueueOrderBatchEndsWithOwnRecord |
