# VeriDoc decision logic

VeriDoc turns documents into a typed Document IR, maps template fields out of that IR, and lets a
value through without review only if a chain of gates agrees. This project models that decision
logic in Dafny and proves what the gates guarantee. `dafny verify dfyconfig.toml` checks it.

- **Template confirmation engine** (`TemplateMatch`, `TemplateRules`, `TemplateReview`,
  `TemplateMapping`, `OutputPaths`, `OutputTree`). A weighted and capped score acts as a boolean
  gate; a shrinking fixpoint finds the greatest set of field values that support each other; the
  second pass confirms exactly that set; confirmed values are written into nested dictionaries on
  the heap, and no write destroys another.
- **Status analyser** (`StatusProgram`, `StatusHistory`, `StatusTokens`, `StatusChain`,
  `StatusAnalyser`). The walk
  over a straight-line test body reports a success observation if and only if a chain of
  statements explains it, from the creation of the server to the assertion on the status.
- **Spreadsheets** (`ColumnCode`, `XlsxGrid`, `XlsxSheet`, `XlsxText`). The column code is an order
  isomorphism; three layouts conserve a sheet's content; the text printed for a sheet reads back
  as its grid.
- **Document IR** (`ParserFragments`, `DocumentIR`, `DocumentValidator`, `OcrRegions`). The
  validator accepts exactly the well-formed documents; only clean parser output goes unreviewed;
  clipped OCR regions always make a well-formed document.
- **Document IR v0 metadata** (`MetadataMerge`, `MetadataReview`, `MetadataSurvival`). The merge is
  a serial dictatorship; it is proved when the review demands of a block that it merges survive,
  in terms of the lists that it is given.
- **Table extractor consensus** (`PairNames`, `TableConsensus`). A table candidate is selected
  exactly when all extractors agree, exactly for the names that a label lets be read back.
- **Metrics** (`MvpPooling`, `HighRisk`, `LlmStability`, `TextOrder`). Pooled ratios neither rescue
  nor sink; high-risk counts add up and a pass means that every target is answered; stability
  metrics depend on the set of runs alone.
- **Version registry** (`VersionOrder`, `TemplateVersions`). The newest active, effective version
  is unique, and deep copies isolate the registry from its callers.
- **Download names** (`Utf8`, `DownloadNames`). Truncation keeps the longest prefix of whole
  characters, the numbered variants of a sanitised name never collide, and allocation succeeds.

`Prelude`, `PythonText`, `DottedText`, `Decimals` and `Sorting` hold the shared vocabulary.

Floats are exact reals, with `NotFinite` standing for NaN where the code tests for it. Timestamps
are integers. Text normalisers, number and date formats, table parsing and the extraction of field
values are arbitrary functions, so every theorem holds for whatever they do.

## What turned out not to hold

Each of these has a lemma with a concrete input, and a lemma that says when the code does meet the
property.

- The v0 merge can lose what a block demands of the reviewer, in three ways: an object rather than
  a dictionary takes the block and stays as it was (`MetadataSurvival.AnObjectLosesTheFlag`); no
  fragment of the page fits it (`MetadataSurvival.AnUnmatchedFlagIsDropped`); or it only lacks a
  confidence, and is filtered out before the merge (`MetadataSurvival.AMissingConfidenceIsDropped`).
  The demands arrive if and only if a fitting fragment shows them already, or the block passes the
  filter and the first fragment that it fits is a dictionary: for one block
  (`MetadataSurvival.OneSourceArrivesExactly`), for each block without rivals
  (`MetadataSurvival.ArrivesExactly`) and for lists of them (`MetadataSurvival.NothingLostExactly`).
  Among rivals that fit the same fragments all are merged if and only if there are as many
  fragments as rivals (`MetadataSurvival.AllMergedExactly`).
- A merge target that names no extractor and no engine takes the engine of its source, and its own
  confidence is then read as a percentage
  (`MetadataSurvival.AnEngineRescales`, `MetadataReview.OwnConfidenceKept`).
- An extractor name that ends in " vs" tears the label of a mismatching pair apart, so that the
  disagreement blocks nobody (`TableConsensus.AHiddenDisagreement`, `TableConsensus.ATornName`). A
  selection means agreement, whatever is extracted, if and only if every name reveals the three
  preferred ones (`TableConsensus.ConsensusExactly`).
- For a sheet wider than 256 columns the grid and the printed text give the same rows only if no
  row has a gap (`XlsxText.AWideSheetDiffers`, `XlsxText.RoundTrip`).

## Model

| member | source | states |
|---|---|---|
| TemplateMatch.MatchTemplateFingerprint | core/ir/template_fingerprint.py:91-193 | score, class, warnings and matched and missing anchors of a match; no review is needed exactly when the gate holds, and then the score is 1; a fail-closed cause forces the unknown class; the caution class never comes without a warning |
| TemplateMatch.GateIsNoReview | core/ir/template_fingerprint.py:81-193 | the weighted, capped score is equivalent to a boolean gate that mentions no score |
| TemplateMatch.QuietScore | core/ir/template_fingerprint.py:120-193 | without a warning the score is 1 if some anchor is found and 0.4 otherwise |
| TemplateMatch.QuietMeans | core/ir/template_fingerprint.py:120-193 | without a warning nothing fails closed, every table is found with its columns and nothing asks for review |
| TemplateMatch.ScoreTables | core/ir/template_fingerprint.py:432-487 | the table score, the cap below the known class and exactly the table warnings |
| TemplateMatch.ScoreAnchors | core/ir/template_fingerprint.py:120-160 | the anchor score and exactly the anchors found and missed |
| TemplateMatch.BestAnchorMatchScore | core/ir/template_fingerprint.py:356-374 | the best score over the blocks in scope is 1 exactly when some block matches |
| TemplateRules.ValidationWarnings | core/ir/template_fingerprint.py:702-751 | the warnings are exactly those of the failed or missing rules, without repetition; none is left exactly when the value passes |
| TemplateRules.FullIsBaseAndCross | core/ir/template_fingerprint.py:702-751 | the full check is the conjunction of its cross-field and its other half |
| TemplateRules.CrossIsMonotone | core/ir/template_fingerprint.py:954-992 | more reviewed values never make a cross-field check fail |
| TemplateRules.RangeIsInterval | core/ir/template_fingerprint.py:927-937 | a range accepts exactly the numbers in a closed interval bounded on one side at least |
| TemplateRules.CrossFieldMeans | core/ir/template_fingerprint.py:954-992 | a cross-field rule on two dates or numbers holds exactly when both can be read and stand as the operator says |
| TemplateReview.ReviewedFieldValues | core/ir/template_fingerprint.py:754-820 | the shrinking loop ends in the greatest self-supporting set of base-reviewed fields; every one of them has a risk that lets it through |
| TemplateReview.ReviewOrderIrrelevant | core/ir/template_fingerprint.py:754-820 | there is one such set, whatever the order of the fields |
| TemplateReview.RiskMeans | core/ir/template_fingerprint.py:616-652 | the risk lets a field through exactly when it is neither high nor critical and, under a matrix, a defined level that is not to be reviewed; otherwise there is the one warning that says why |
| TemplateMapping.PassesAgree | core/ir/template_fingerprint.py:243-343 | the second pass confirms a field exactly when the first pass reviewed it |
| TemplateMapping.ConfirmedAreReviewed | core/ir/template_fingerprint.py:243-343 | the confirmed fields and values are those of the fixpoint, so no confirmed value was validated against an unconfirmed one |
| TemplateMapping.MapField | core/ir/template_fingerprint.py:248-335 | when a mapped field is confirmed, when an absent field needs review, and exactly which warnings a withheld field carries |
| TemplateMapping.AbsentRiskMeans | core/ir/template_fingerprint.py:655-672 | a field without a value that is not required is only warned of a missing or undefined risk level |
| TemplateMapping.OutputKeyMeans | core/ir/template_fingerprint.py:257-257 | the output key is the last one mapped to the field, else the field's own, else its id |
| TemplateMapping.EntriesMean | core/ir/template_fingerprint.py:1403-1418 | the keys compared for conflicts are those of the fields and of the tables, the last one for each table |
| TemplateMapping.ApplyTemplateFieldMapping | core/ir/template_fingerprint.py:196-353 | the output tree holds exactly the confirmed writes; every field has its own output key and extracted value and is confirmed only if its risk lets it pass; the result's warnings are exactly those of the match, of the key conflicts and of the withheld fields, and a missing known template; a result without review implies the gate |
| TemplateMapping.ConfirmedKeysAreApart | core/ir/template_fingerprint.py:1403-1418 | no two confirmed fields write to overlapping places |
| TemplateMapping.OutputIsTheConfirmedValues | core/ir/template_fingerprint.py:243-343 | every confirmed value reads back at its place and nothing else is there; the number of leaves is the number of placed values; without the gate the output is empty |
| OutputPaths.OutputKeyConflicts | core/ir/template_fingerprint.py:1949-1982 | a key is reported exactly when its path overlaps that of another entry, each overlapping pair once |
| OutputPaths.UnreportedKeyIsApart | core/ir/template_fingerprint.py:1949-1982 | the path of an unreported key is neither the same as, nor a prefix of, nor below any other |
| OutputPaths.PathOfJoin | core/ir/template_fingerprint.py:1935-1940 | every path of non-empty parts is denoted by its dotted key |
| OutputTree.Output.SetOutputValue | core/ir/template_fingerprint.py:1935-1946 | the nested dictionaries on the heap hold the new value and lose exactly what stood on its way, at it or below it |
| OutputTree.ReadBack | core/ir/template_fingerprint.py:1935-1946 | indexing the dictionaries key by key finds exactly the values that the contents list |
| OutputTree.SameValuesSameDicts | core/ir/template_fingerprint.py:1935-1946 | the values determine the nested dictionaries |
| OutputTree.WrittenValuesStand | core/ir/template_fingerprint.py:1935-1982 | after writes to places that are apart, exactly the written values stand, one leaf for each |
| OutputTree.WriteOrderIrrelevant | core/ir/template_fingerprint.py:1935-1982 | the tree is the same for every order of the writes |
| StatusProgram.SpelledPrefixIsParent | scripts/evaluate_dataset.py:1123-1135 | dropping the observations whose spelling starts with `attr:<key>.` drops exactly the attributes of the key |
| StatusProgram.NamesAreBound | scripts/evaluate_dataset.py:1099-1120 | the bound names of a statement are exactly the names among its targets |
| StatusProgram.ClearedIsBound | scripts/evaluate_dataset.py:1123-1135 | an observation goes stale exactly when a statement binds or deletes its key or what that is an attribute of |
| StatusTokens.OriginOf | scripts/evaluate_dataset.py:2145-2295 | the configured tokens on record before any step come from the last call or target that stored or dropped them, or are none |
| StatusTokens.TokensOf | scripts/evaluate_dataset.py:2145-2295 | only the tokens on record have such an origin |
| StatusTokens.EnvironmentOf | scripts/evaluate_dataset.py:2319-2328 | the environment tokens are those that the last statement to change them has left |
| StatusAnalyser.ClearStatuses | scripts/evaluate_dataset.py:1123-1135 | exactly the observations under a key or an attribute of it are popped |
| StatusAnalyser.ScanCalls | scripts/evaluate_dataset.py:2152-2182 | the tokens configured and the requests pending after the calls of a statement |
| StatusAnalyser.AssignNames | scripts/evaluate_dataset.py:2184-2209 | servers, connections and pending requests after an assignment's names, taken in order |
| StatusAnalyser.Walk | scripts/evaluate_dataset.py:2118-2335 | the sets and dictionaries of the walk are what the statements so far have left |
| StatusAnalyser.SuccessObservations | scripts/evaluate_dataset.py:2078-2335 | the observations reported are exactly the justified ones, in the order of their assert statements; a justification mentions the syntax of the statements alone |
| StatusChain.EveryStatusIsExplained | scripts/evaluate_dataset.py:2118-2335 | soundness: every observation has a chain of server, connection, request, response and status, with no name rebound or deleted between its link and the next, and with the steps that set the server's and the environment's tokens |
| StatusChain.EveryChainIsRecorded | scripts/evaluate_dataset.py:2118-2335 | completeness: every such chain is on record with the observation it explains |
| StatusChain.PendingOnConnections | scripts/evaluate_dataset.py:2029-2038 | the supporting invariant: requests are pending on known connections only |
| StatusChain.ResponseUntouched | scripts/evaluate_dataset.py:2118-2335 | in a direct chain the response name is untouched from its binding on |
| StatusChain.ReachesMeans | scripts/evaluate_dataset.py:1954-2013 | a value makes a connection exactly when its constructor is visible, its host is local or that of a known server, and its port is that of one |
| ColumnCode.XlsxColumnIndex | core/ir/document_ir_v1.py:771-775 | the accumulator loop computes the bijective base-26 value |
| ColumnCode.XlsxColumnIndexUpper | core/ir/template_fingerprint.py:2628-2632 | the other copy computes the same value of the capitalised letters |
| ColumnCode.IndexOfName | core/ir/document_ir_v1.py:771-775 | the index of the name of column n is n |
| ColumnCode.NameOfIndex | core/ir/document_ir_v1.py:771-775 | the name of the index of a code is the code |
| ColumnCode.ColumnOrder | core/ir/document_ir_v1.py:771-775 | the code is strictly monotone in length, then lexicographic order, both ways |
| XlsxGrid.CoordinatesArePositive | core/ir/document_ir_v1.py:763-768 | rows and columns of a reference count from 1 |
| XlsxGrid.CoordinatesMean | core/ir/document_ir_v1.py:763-768 | exactly the name of a column, in either case, with the numeral of a row is read as that position |
| XlsxSheet.PositionCells | core/ir/document_ir_v1.py:713-726 | the grid of the positioned cells, and the fallback cells in order |
| XlsxSheet.SheetRows | core/ir/document_ir_v1.py:713-760 | the rows of a sheet are its laid-out grid followed by the fallback rows |
| XlsxSheet.LayoutsConserve | core/ir/document_ir_v1.py:730-760 | each of the three layouts, read without blanks, is the positioned cells row by row and column by column |
| XlsxSheet.DensePlacement | core/ir/document_ir_v1.py:736-745 | in the dense layout every value stands at its own row and column |
| XlsxSheet.LayoutSize | core/ir/document_ir_v1.py:730-760 | the layout has at most 1024 rows of 256 columns, or 256 columns for each positioned cell |
| XlsxSheet.WhoWrote | core/ir/document_ir_v1.py:713-726 | whatever a position holds was the last text written to it |
| XlsxSheet.LastWrittenStands | core/ir/document_ir_v1.py:713-726 | the last text written to a position stays there |
| XlsxSheet.DenseRowsWithoutBlanks | core/ir/document_ir_v1.py:736-753 | the dense layout without its blank rows is the layout of the rows that hold a cell |
| XlsxText.PrintReferenceLines | core/ir/document_ir_v1.py:699-710 | the lines printed for a sheet |
| XlsxText.PrintSheet | core/ir/document_ir_v1.py:680-687 | the text of a sheet: its label and its lines |
| XlsxText.XlsxCellRows | core/ir/template_fingerprint.py:2580-2625 | the rows read from a printed text, with continuation lines and the cases in which the reader gives up |
| XlsxText.CellLineMeans | core/ir/template_fingerprint.py:2618-2625 | exactly a reference, a colon and a rest are read as a cell, one leading space of the rest dropped |
| XlsxText.NameMeans | core/ir/template_fingerprint.py:578-579 | a text names nothing exactly when it is blank once its dashes and underscores are spaces |
| XlsxText.PrintedIsRead | core/ir/document_ir_v1.py:680-710 | reading the printed lines puts every text where the grid of the sheet has it, last write winning in both |
| XlsxText.PrintedSheetIsRead | core/ir/template_fingerprint.py:2580-2611 | the text of a printable sheet reads back as the rows of its grid that hold a cell |
| XlsxText.RoundTrip | core/ir/document_ir_v1.py:680-760 | the rows read back are the rows kept, blank rows apart, exactly when the last column is at most 256 or no row has a gap |
| XlsxText.AWideSheetDiffers | core/ir/document_ir_v1.py:754-758 | one cell in column 257 is packed alone in the grid and stands behind 256 blanks in the text |
| XlsxText.SameContent | core/ir/document_ir_v1.py:680-760 | whatever the width, both views hold the same texts in the same rows, in column order |
| DocumentIR.FromParserOutput | core/ir/document_ir_v1.py:90-132 | one page for each page with its number and size; one block for each fragment and then each region, page by page, with its text, box, page number, type, extractor and confidence; the warnings of the blocks and of a missing page or block |
| DocumentIR.BuiltShowsAll | core/ir/document_ir_v1.py:90-267 | the document that is built shows every page, fragment and region as it was given |
| DocumentIR.ReviewHasReason | core/ir/document_ir_v1.py:204-267 | a block asks for review exactly when it carries a warning that says why |
| DocumentIR.BlockIdsDiffer | core/ir/document_ir_v1.py:256-258 | blocks of different positions have different identifiers |
| DocumentValidator.ValidateDocument | core/ir/document_ir_v1.py:135-201 | accepted exactly when well formed; the errors are exactly the rules broken; the warnings without repetition; review waived exactly when nothing asks for it |
| DocumentValidator.WellFormedBreaksNothing | core/ir/document_ir_v1.py:135-201 | the declarative notion of a well-formed document and the list of rules agree |
| DocumentValidator.CheckPage | core/ir/document_ir_v1.py:150-163 | exactly the broken rules of a page, and the index of pages by number |
| DocumentValidator.CheckBlock | core/ir/document_ir_v1.py:165-188 | exactly the broken rules of a block, and its warnings if its page is declared |
| DocumentValidator.OnlyCleanGoesUnreviewed | core/ir/document_ir_v1.py:90-267 | a document built from parser output goes without review exactly when it is well formed, has a block, and every fragment and region is clean |
| OcrRegions.ClippingIsIntersection | core/parsers/ocr_extraction.py:363-378 | the box kept is the part of the region on the page; a region is dropped exactly when that part has no area |
| OcrRegions.NormalizeRegions | core/parsers/ocr_extraction.py:331-360 | blank texts and empty boxes are skipped, the rest kept in order |
| OcrRegions.RegionsAreNormal | core/parsers/ocr_extraction.py:331-378 | every region kept has text, a box of positive size inside its page, and its low-confidence flag |
| OcrRegions.ExtractPages | core/parsers/ocr_extraction.py:108-135 | pages numbered from 1 with their regions, status and count |
| OcrRegions.SumCounts | core/parsers/ocr_extraction.py:180-181 | the candidate's counts are those of all regions |
| OcrRegions.OkStatus | core/parsers/ocr_extraction.py:180-188 | the candidate is ok exactly when there is a region and none has low confidence |
| OcrRegions.OcrDocumentIsWellFormed | core/ir/document_ir_v1.py:135-201 | the Document IR of clipped regions is well formed exactly when there is a page and no confidence exceeds 100 percent |
| OcrRegions.ReviewFollowsStatus | core/ir/document_ir_v1.py:190-201 | review is waived exactly when the candidate status is "ok" and every confidence is from 0 to 100 percent |
| MetadataMerge.MergeFragmentList | core/ir/document_ir_v1.py:436-465 | one target after the other takes the best source left; taken and remaining sources are the input, the rest in order |
| MetadataMerge.AssignmentIsUnique | core/ir/document_ir_v1.py:436-465 | the order of the targets leaves no choice |
| MetadataMerge.TakenOnce | core/ir/document_ir_v1.py:436-465 | no source goes to two targets |
| MetadataMerge.NothingLeftFits | core/ir/document_ir_v1.py:436-465 | an unmatched target fits no source left over, and a matched one would not rather have one |
| MetadataMerge.BestMatchIsBest | core/ir/document_ir_v1.py:445-459 | no source that fits comes before the one picked |
| MetadataMerge.WhatIsBetter | core/ir/document_ir_v1.py:481-543 | a known equal box comes first, then an equal extractor name, then the position |
| MetadataMerge.FitsMeans | core/ir/document_ir_v1.py:481-543 | a source fits a target with the same text and type, the same extractor or none of its own, and no other box |
| MetadataMerge.AddMetadata | core/ir/document_ir_v1.py:546-612 | the entries of the merged dictionary, one by one |
| MetadataReview.MergeIntoPage | core/ir/document_ir_v1.py:409-433 | fragments and regions together are served like one list |
| MetadataReview.Chained | core/ir/document_ir_v1.py:409-433 | giving the second list what the first one left is serving one list after the other |
| MetadataReview.DemandsReachDictionaries | core/ir/document_ir_v1.py:546-583 | the demands of a source reach its target exactly when that is a dictionary or makes them already |
| MetadataReview.TargetKeepsItsOwn | core/ir/document_ir_v1.py:546-583 | a target keeps its own demands, its text and its place |
| MetadataReview.CarriedDemandsReachTheBlock | core/ir/document_ir_v1.py:204-267 | the block of a fragment that carries a demand asks for review with the same warnings |
| MetadataReview.AdoptedConfidenceIsUnscaled | core/ir/document_ir_v1.py:566-575 | a confidence adopted from a source is never read as a percentage |
| MetadataReview.OwnConfidenceKept | core/ir/document_ir_v1.py:551-575 | a target's own confidence keeps its value exactly when it takes no engine, or is 0 |
| MetadataReview.BlockTypeIsMatchedType | core/ir/document_ir_v1.py:586-598 | when the block gets the type that target and source were matched by |
| MetadataSurvival.MergeIsServed | core/ir/document_ir_v1.py:409-465 | told over the inherited blocks before the filter: only fitting blocks with metadata are taken, none twice, and a target takes none only if all that fit it are taken before |
| MetadataSurvival.ArrivesExactly | core/ir/document_ir_v1.py:409-583 | the demands of a block without rivals arrive exactly when they are shown already or it passes the filter and fits a dictionary first |
| MetadataSurvival.OneSourceArrivesExactly | core/ir/document_ir_v1.py:409-583 | the same for a single block, without any condition |
| MetadataSurvival.NothingLostExactly | core/ir/document_ir_v1.py:409-583 | for lists without rivals no demand is lost exactly when each meets that condition |
| MetadataSurvival.ArrivesOnlyAtDictionaries | core/ir/document_ir_v1.py:436-583 | with rivals or without, demands that arrive were shown already or fit a dictionary that takes some block |
| MetadataSurvival.AllMergedExactly | core/ir/document_ir_v1.py:409-465 | if blocks that share a target share all, each is merged into a target of its own exactly when there are as many targets as rivals |
| MetadataSurvival.ArrivesWithEnoughTargets | core/ir/document_ir_v1.py:409-583 | with rivals of any kind, the demands of a block that fits dictionaries only, and as many as it has rivals, arrive |
| MetadataSurvival.AnObjectLosesTheFlag | core/ir/document_ir_v1.py:546-548 | an object takes a block that requires review and stays as it was |
| MetadataSurvival.AnUnmatchedFlagIsDropped | core/ir/document_ir_v1.py:409-433 | a block whose text no fragment has is dropped with its flag |
| MetadataSurvival.AMissingConfidenceIsDropped | core/ir/document_ir_v1.py:468-474 | a block that only lacks a confidence never reaches the merge, and the page stays clean |
| MetadataSurvival.AnEngineRescales | core/ir/document_ir_v1.py:551-558 | a fragment's own confidence of 0.9 becomes 0.009 once it takes an engine |
| PairNames.LabelSplits | core/parsers/pdf_table_extraction.py:446-448 | a label splits at its own separator unless the left name's last piece ends in " vs" |
| TableConsensus.BuildReport | core/parsers/pdf_table_extraction.py:135-272 | the mismatches are exactly those there are, alone or in pairs, with or without an expected shape; those between candidates are exactly their differences in tables, pages, row lengths and normalised cells; the selection that follows |
| TableConsensus.DifferencesAreReported | core/parsers/pdf_table_extraction.py:207-253 | a text mismatch is reported exactly when two candidates have tables of the same shape with a cell whose normalised texts differ; likewise for shapes, pages and table counts |
| TableConsensus.DifferentCellsBlock | core/parsers/pdf_table_extraction.py:207-260 | without an expected shape one such cell leaves nothing selected |
| TableConsensus.SelectCandidate | core/parsers/pdf_table_extraction.py:438-457 | the first preferred name that has a table and is not blocked |
| TableConsensus.SelectionIsConsensus | core/parsers/pdf_table_extraction.py:196-260 | without an expected shape a preferred candidate is selected exactly when all candidates agree pairwise and all its cells have boxes; the first such one is |
| TableConsensus.SelectionForShape | core/parsers/pdf_table_extraction.py:165-205 | with an expected shape a preferred name is eligible exactly when its own tables fit, whatever the others extract |
| TableConsensus.AgreementIsEquivalence | core/parsers/pdf_table_extraction.py:207-253 | agreement on table count, pages, widths and normalised text is symmetric and transitive |
| TableConsensus.AgreeUnlessDisagree | core/parsers/pdf_table_extraction.py:207-253 | two candidates agree exactly when no mismatch between them is found |
| TableConsensus.UnconfusableNamesReveal | core/parsers/pdf_table_extraction.py:446-448 | names whose last piece does not end in " vs" are safe |
| TableConsensus.AHiddenDisagreement | core/parsers/pdf_table_extraction.py:438-457 | for any name that does not reveal one of the preferred ones there is a disagreement that blocks nobody, and the preferred one is selected |
| TableConsensus.ConsensusExactly | core/parsers/pdf_table_extraction.py:196-260 | a selection means agreement for all that can be extracted exactly when every name reveals all three preferred names |
| TableConsensus.ATornName | core/parsers/pdf_table_extraction.py:446-448 | there is such a name |
| MvpPooling.MetricsAreSound | scripts/evaluate_dataset.py:5852-5896 | a pass or fail made by `_mvp_ratio_metric` is never taken for invalid by the rollup |
| MvpPooling.Pooled | scripts/evaluate_dataset.py:6425-6480 | when all cases reach the threshold, so does the pooled ratio |
| MvpPooling.AggregateRatio | scripts/evaluate_dataset.py:6425-6480 | the rollup passes exactly when there is a case and every case is valid and passes alone; it fails exactly when all are valid and one fails |
| HighRisk.AccountHighRisk | scripts/evaluate_dataset.py:5966-6119 | covered and missed targets add up to the expected ones; unknown exactly when the evidence is not sound; a pass exactly when every expected target has a first review item that is decided on or inside an accepted OCR boundary, and is not auto-confirmed |
| HighRisk.ReadTargets | scripts/evaluate_dataset.py:5966-5992 | the expected targets; no complaint exactly when all are well formed and distinct |
| HighRisk.ReadItems | scripts/evaluate_dataset.py:5994-6017 | the first review item of every expected key; no complaint exactly when every item is sound |
| HighRisk.RollUpHighRisk | scripts/evaluate_dataset.py:6532-6629 | the totals, unknown exactly when a case is not counted, a pass exactly when every case is clear |
| HighRisk.TotalsAddUp | scripts/evaluate_dataset.py:6532-6580 | the totals keep covered + missed = expected |
| HighRisk.RollupOfAccountings | scripts/evaluate_dataset.py:6532-6629 | the rollup of accountings passes exactly when every case passes; none is turned away for its counts |
| LlmStability.ValidateOutcome | scripts/evaluate_dataset.py:10065-10117 | accepted exactly when a failure was either repaired after an attempt or fell back, and a success did neither |
| LlmStability.MostCommonFingerprint | scripts/evaluate_dataset.py:10012-10014 | the most frequent fingerprint, the least of them in a tie |
| TextOrder.LessMeans | scripts/evaluate_dataset.py:10012-10014 | the order of strings is decided by their first difference |
| LlmStability.ReferenceRuns | scripts/evaluate_dataset.py:10017-10051 | the least run with both reference fingerprints, or one for each |
| LlmStability.EvaluateStability | scripts/evaluate_dataset.py:10120-10228 | accepted exactly for at least two valid runs with distinct ids, and then the metrics of the set of runs |
| LlmStability.MetricsAreUnique | scripts/evaluate_dataset.py:10120-10228 | a set of runs has one description |
| LlmStability.OrderIsIrrelevant | scripts/evaluate_dataset.py:10120-10228 | a permutation of the runs changes nothing, neither reference runs nor the examples kept |
| LlmStability.MatchesTimesDistinct | scripts/evaluate_dataset.py:10174-10178 | pigeonhole: matches times distinct fingerprints reach all runs |
| LlmStability.StableIsBothRates | scripts/evaluate_dataset.py:10186-10210 | no run is unstable exactly when both rates are 1 |
| LlmStability.FailuresAreHandled | scripts/evaluate_dataset.py:10065-10117 | schema failures = repaired + fallback, repaired ≤ attempted ≤ failures |
| LlmStability.WhatMetricsMean | scripts/evaluate_dataset.py:10212-10228 | the same relations between the reported numbers |
| VersionOrder.KeyIsInjective | core/ir/template_versions.py:162-167 | different canonical versions have different keys |
| VersionOrder.KeyIsWritten | core/ir/template_versions.py:162-167 | a version has a key exactly when it is written as its three numbers, without leading zeros |
| TemplateVersions.DeepCopy | core/ir/template_versions.py:42 | a copy holds the same, and neither it nor its effective window is shared with the original |
| TemplateVersions.Register | core/ir/template_versions.py:28-42 | accepted exactly when all templates are sound and no version comes twice; the registry holds the set of them, in templates and windows of its own |
| TemplateVersions.TemplateVersionRegistry.SelectActive | core/ir/template_versions.py:44-58 | a fresh deep copy of the newest active and effective version, the one with the highest major, then minor, then patch number, or the error that applies |
| TemplateVersions.TemplateVersionRegistry.GetVersion | core/ir/template_versions.py:60-83 | a fresh deep copy of the version asked for exactly when it is registered, allowed and effective and the time can be read, or the error that applies, in the order of the checks |
| TemplateVersions.SelectionIsUnique | core/ir/template_versions.py:44-58 | there is one selection for a set of templates, whatever the order of registration |
| TemplateVersions.SelectedIsHighest | core/ir/template_versions.py:44-58 | selected is exactly the open, active version that no other exceeds in the major, then the minor, then the patch number |
| TemplateVersions.VersionsDiffer | core/ir/template_versions.py:57-58 | two versions of one template never tie |
| TemplateVersions.SelectedIsNewestAvailable | core/ir/template_versions.py:44-83 | the selection is the newest version that `get_version` gives at the same time |
| TemplateVersions.SelectionIsConstant | core/ir/template_versions.py:136-145 | between window boundaries the selection does not change |
| TemplateVersions.AnswersAreIsolated | core/ir/template_versions.py:28-58 | writes to a supplied or a returned template, or to its window, change no later answer |
| Utf8.TruncateIsLongestPrefix | apps/desktop/api_client.py:1088-1094 | truncation keeps the longest prefix of whole characters that fits |
| Utf8.DecodePrefix | apps/desktop/api_client.py:1088-1094 | decoding cut bytes while ignoring errors drops exactly the character that is cut |
| Utf8.KnownEncodings | apps/desktop/api_client.py:1088-1094 | one character of each width in its known bytes |
| DownloadNames.FitWithinLimit | apps/desktop/api_client.py:1070-1085 | a fitted name is not empty and never exceeds a limit of 19 bytes or more |
| DownloadNames.FittedIsSafe | apps/desktop/api_client.py:954-961 | every name that the sanitiser has fitted starts with an untrimmed character and is within the limit |
| DownloadNames.ShortNameIsKept | apps/desktop/api_client.py:1070-1085 | a name within the limit, with a stem that has nothing to strip, is kept as it is |
| DownloadNames.NumberedNamesDiffer | apps/desktop/api_client.py:1051-1085 | the 999 numbered variants of whatever the sanitiser returns are pairwise different |
| DownloadNames.AvailableName | apps/desktop/api_client.py:1051-1057 | the first candidate that is free, none exactly when all thousand are taken |
| DownloadNames.AllocationSucceeds | apps/desktop/api_client.py:1051-1057 | with fewer than 999 names taken a free variant of whatever the sanitiser returns is found |
| DownloadNames.DashesLoseTheirNumbers | apps/desktop/api_client.py:1070-1085 | why names are fitted before they are numbered: without it, every numbered candidate of 255 dashes or more is the fallback name |

## Left out

- HTTP, TLS, sockets, subprocesses, git, SQLite, temporary files, signal timers and the calls into PyMuPDF, Camelot, pdfplumber, Tesseract, PaddleOCR, zip and XML: external effects; their outputs are arbitrary inputs here.
- The LLM parameter audit (`core/llm/`) and persistence: string classification against word tables, and re-exports.
- The label-text heuristics, table cell extraction and the row and column span search of `core/ir/template_fingerprint.py`: the extraction of a field's value and the required-column score are arbitrary functions.
- TemplateMapping.ConfirmedAreReviewed: assumes non-empty, distinct field ids, none of them `table:<id>` of an output table, because the source keys its dictionaries by field id and merges duplicates.
- TemplateMapping.ConfirmedKeysAreApart: assumes the same of the field ids; a duplicate id would hide one of two clashing keys from the conflict check.
- TemplateMapping.MapField: does not model the label and the evidence of a mapped field; its warnings are exact as a set.
- TemplateMapping.ApplyTemplateFieldMapping: does not model the root key that the output is wrapped in, nor the order of the warnings.
- TemplateMatch.MatchTemplateFingerprint: says which warnings there are, not in which order; an anchor's match is 1 or 0, as in the source.
- OutputPaths.OutputKeyConflicts: says which warnings there are under a key, not in which order.
- StatusAnalyser.AssignNames: takes the names of a tuple target in the order in which the statement lists them, where the source iterates a frozenset; a statement of the model stands for one whose names are iterated in that order, so the theorems hold for each order but do not compare two.
- StatusAnalyser.SuccessObservations: covers straight-line bodies with name or flat-tuple targets; loops, branches, nested tuples and augmented assignments are not modelled, a statement carries the tokens and literals that the walker extracts from it together with its effect on the environment tokens, and the order of observations within one assert is left open.
- XlsxText.RoundTrip: covers sheets whose texts stand in referenced cells, on one line, with something besides spaces, `-` and `_`; the reader drops or merges the others by design.
- The page heights of spreadsheets, `_rows_value`, document titles and extractor versions: carried along without a decision.
- DocumentIR.FromParserOutput: starts from adapted pages; distributing v0 blocks over pages (`adapt_document_ir_v0_blocks`), docx pages and PDF table reports are not modelled.
- DocumentValidator.ValidateDocument: names the rule that each error message stands for, not its text; an infinite coordinate that is not NaN is not modelled, and `from_parser_output` never produces one.
- OcrRegions.OcrDocumentIsWellFormed: boxes are finite and page sizes positive, as a rasterised page gives them; exact arithmetic leaves out the rounding of clipped coordinates.
- MetadataSurvival.NothingLostExactly: assumes that blocks with demands have no rivals; which of several rivals of different kinds goes without depends on their ranks, and only the necessary and the sufficient condition cover it.
- MetadataMerge.MergeFragmentList: an item is a non-empty mapping or none at all; entries that the merge neither reads nor writes are not modelled.
- TableConsensus.BuildReport: the expected and actual texts and the notes of a mismatch are not modelled.
- MvpPooling.AggregateRatio: rates are exact quotients, so a rate that only rounds up to its threshold is not modelled.
- The other dimensions of the metrics rollup (completeness, case acceptance, review, external sends, performance, snapshot integrity): flags counted case by case, which would only add easy members.
- LlmStability.EvaluateStability: fingerprints are opaque strings, None for an invalid plan or value list; which check of a run failed first is not told apart, and the schema version, the scope and the input identifier, which are checked before the runs, are not modelled.
- TemplateVersions.Register: which template and field an error names is not modelled; a template's window is a dictionary of its own, its other nested values are one value.
- DownloadNames.NumberedNamesDiffer: the sanitiser's replacements, before it fits the name, are arbitrary functions; the retry of a download that finds its destination taken meanwhile is not modelled, and `_available_destination_path` sees the directory as a set of names.
- Utf8.Decode: lone surrogates, which Python strings can hold and UTF-8 cannot encode, do not occur.
