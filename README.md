# pdf_extractor core, modelled in Dafny

This project models the extraction core of the medical-report PDF extractor
(`pdf_extractor.py`, class `PDFExtractor`).

## Pipeline

The extractor takes the text of a genetic or immunohistochemistry (IHC) report.
1. It decides whether the PDF's text layer is good enough. If it is not, and OCR
   yields text, the OCR text replaces it.
2. It refuses placeholder ("000-111") or redaction-marked documents with a notice.
3. Otherwise it builds two records from the same text:
   - a genetic record of 37 keys;
   - an IHC record of 14 keys.
4. From the text, the spreadsheet export assembles one row per genetic variant
   (at most five), an IHC row for PD-L1, or a default row.

## Modules

| module | file | covers |
|---|---|---|
| `Text` | `text.dfy` | character classes, Python's `strip` and `split`, digit runs, first-match helpers |
| `FieldResolver` | `resolver.dfy` | the three field resolvers (see below) |
| `TextGates` | `gates.dfy` | `is_low_quality_text`, `is_redacted_pdf`, `create_redacted_notice`, and the OCR gate of `extract_data_from_pdf` |
| `Biomarkers` | `biomarkers.dfy` | `determine_folr1_interpretation` and `extract_pdl1_results` |
| `VariantRecord` | `variant_record.dfy` | the 17-key variant record and `parse_mutation_row` |
| `VariantTable` | `variant_table.dfy` | the table and fallback phase (see below) |
| `GeneticVariants` | `genetic_variants.dfy` | `extract_genetic_variants` (see below) |
| `Records` | `records.dfy` | `extract_genetic_report_data`, `extract_ihc_report_data` and the record part of `extract_data_from_pdf` |
| `Rows` | `rows.dfy` | the row list `create_excel_from_data` builds |

- `FieldResolver` covers:
  - `extract_pattern`: group 1, stripped, whitespace collapsed;
  - `extract_multiple_patterns`: the first rule whose value is neither empty nor "N/A";
  - `extract_field_value`: the first name pattern whose stripped capture is neither empty nor "N/A".
- `VariantTable` covers:
  - `extract_marker_details_section`;
  - `parse_variant_table`: the header scan and the nine-line row window;
  - `fallback_gene_extraction`;
  - `extract_variant_details_from_context`;
  - `find_mentioned_genes`.
- `GeneticVariants` covers `extract_genetic_variants`:
  - table records first;
  - then the four gene patterns, skipping genes already recorded;
  - then at most three bare gene mentions;
  - capped at five.

## How regular expressions are modelled

The source's regular expressions are of two kinds.
- Expressions with lazy `.*?`, `DOTALL` and backtracking are abstract in the model. A `Rule` is either:
  - `Capturing`: a function from text to an optional group-1 capture;
  - `Plain`: a pattern without a group. `extract_pattern` then raises `IndexError` and returns its default.
  `Searches`, `NamePatterns`, `Folr1Rules`, `RowSearches` and `FindAll` bundle such functions.
- Expressions whose meaning is simple are written out. These are:
  - the gene-name shape and the cDNA and amino-acid prefixes of `parse_mutation_row`;
  - `re.split(r'\s{2,}|\t')`;
  - the in-order header keywords on a single line;
  - word-bounded gene mentions;
  - `(\d{2,3})`;
  - the first number of a VAF cell;
  - the `000-111` placeholder;
  - the redaction markers;
  - the case-insensitive substring cues (`pathogenic`, `deletion` and the like).

The PD-L1 searches return a `PercentText`, a non-empty capture ending in a digit, because each of the three patterns ends its group with `[0-9]+` (`pdf_extractor.py:1111-1113`). So `re.findall(r'\d+', percentage)[0]` always exists.

Case folding and `\w` are ASCII only. `str.isspace` covers Python's full whitespace set.

Ratios such as `short_lines / len(lines) > 0.8` are exact rational comparisons: `TextGates.Exceeds` proves them equivalent to integer cross-multiplication. A FOLR1 percentage is parsed as an exact decimal.

## Notable behaviour of the code

- There is no report-type classifier. Every text that is not redacted yields both the genetic and the IHC record (`pdf_extractor.py:112-120`; `Records.BothRecordsBuilt`).
- The marker-section search falls back only to the whole text (`pdf_extractor.py:1139-1140`).
- There is no early stop. Every gene pattern runs over the whole text, not only over the marker section. The result is capped at five at the end (`pdf_extractor.py:993-1106`).

Some behaviour of the code as written is modelled as such:
- Rules without a capturing group never decide a field. These are:
  - the bare `NM_[0-9]+\.[0-9]+` transcript rule;
  - `RCV[0-9]+` and `VCV[0-9]+`;
  - `Male|Female` and `M|F`.

  So a report that only says "Female" gets Gender "N/A" (`Records.PlainRulesNeverDecide`).
- For the NPM1 and "other genes" patterns, group 2 is an amino-acid change, yet it is stored as the transcript (`pdf_extractor.py:1022-1023`; `GeneticVariants.GroupOrSearch`).
- The default row leaves the sensitivity and specificity columns at "N/A" (`Rows.DefaultRow`).

## Model

| member | source | states |
|---|---|---|
| Text.SplitOnJoin | pdf_extractor.py:517 | joining the parts of `split('\n')` with the line break gives back the text, so no character is lost or invented |
| Text.TokensEmptyIffBlank | pdf_extractor.py:525 | `split()` gives no word exactly when the text is all whitespace |
| Text.FirstNumber | pdf_extractor.py:1248 | the number is taken from the first digit of the text on, covers that whole digit run and at most a '.' and digits after it; it is empty exactly when the text has no digit |
| Text.TwoOrThreeDigitsNone | pdf_extractor.py:1283 | `\d{2,3}` finds nothing exactly when no two digits are adjacent |
| Text.TwoOrThreeDigitsLeftmost | pdf_extractor.py:1371 | a capture is the text at the leftmost pair of adjacent digits, and it stops at two digits only when no third digit follows |
| FieldResolver.Collapse | pdf_extractor.py:503 | collapsing whitespace runs to one space never lengthens the text |
| FieldResolver.CollapseEnds | pdf_extractor.py:503 | the collapsed text is empty exactly when the input is, and starts (ends) with whitespace exactly when the input does |
| FieldResolver.CollapseSingleSpaces | pdf_extractor.py:503 | after `re.sub(r'\s+', ' ', ...)` every whitespace character is a single space with no whitespace beside it |
| FieldResolver.ReplaceBreaks | pdf_extractor.py:504 | replacing `\n` and `\r` by spaces keeps the length |
| FieldResolver.BreaksAlreadyGone | pdf_extractor.py:503-504 | on collapsed text the line-break replacement changes nothing: no `\n` or `\r` survives the collapse |
| FieldResolver.CollapseNormalises | pdf_extractor.py:501-504 | a stripped value, once collapsed, is normalised (no edge whitespace, only single spaces, no line breaks) and empty only if it was empty |
| FieldResolver.Clean | pdf_extractor.py:501-504 | the cleaned capture is normalised, and empty exactly when the raw capture is blank |
| FieldResolver.Resolve | pdf_extractor.py:499-505 | a rule yields a value exactly when it has a capturing group, matches, and its capture is not blank; the value is the cleaned capture |
| FieldResolver.ExtractPattern | pdf_extractor.py:496-509 | a resolved capture is returned; with none (no match, a blank capture, or a rule without a group raising `IndexError`), the default; any non-default result is normalised and non-empty |
| FieldResolver.ExtractMultiplePatterns | pdf_extractor.py:716-722 | the result is the default or a normalised non-empty value other than "N/A" |
| FieldResolver.Hits | pdf_extractor.py:718-720 | flag j says whether rule j yields a value other than "N/A" |
| FieldResolver.MultipleIsFirstHit | pdf_extractor.py:716-722 | the result is the value of the first rule that hits, or the default when none does |
| FieldResolver.WithoutPlain | pdf_extractor.py:499-509 | the kept rules all have a capturing group |
| FieldResolver.PlainRulesIgnored | pdf_extractor.py:716-722 | dropping every rule without a group leaves the result unchanged |
| FieldResolver.NameSearches | pdf_extractor.py:1388-1393 | each field name contributes its exact pattern and then its space-relaxed pattern, in name order |
| FieldResolver.FirstStripped | pdf_extractor.py:1395-1401 | the result is the default, or a non-empty value other than "N/A" with no whitespace at either end |
| FieldResolver.Acceptances | pdf_extractor.py:1397-1400 | flag j says whether search j matches with a stripped capture that is neither empty nor "N/A" |
| FieldResolver.StrippedIsFirstAccepted | pdf_extractor.py:1386-1403 | the result is the stripped capture of the first accepting search, or the default |
| FieldResolver.ExtractFieldValue | pdf_extractor.py:1386-1403 | the value is the default or a stripped non-empty value other than "N/A" |
| TextGates.Exceeds | pdf_extractor.py:521-522 | the integer test agrees with the ratio comparison `part / whole > num / den` |
| TextGates.RatioOrder | pdf_extractor.py:521-522 | for positive denominators, `a/b > c/d` holds exactly when `a*d > c*b` |
| TextGates.ShortLines | pdf_extractor.py:520 | the number of lines shorter than 10 once stripped is at most the number of lines |
| TextGates.SuspiciousTokens | pdf_extractor.py:528-531 | the number of suspicious words is at most the number of words |
| TextGates.ShortLinesAppend | pdf_extractor.py:520 | the short-line count of a list is the sum of the counts of any two parts it splits into, so each line counts once |
| TextGates.SuspiciousTokensAppend | pdf_extractor.py:528-531 | the suspicious-word count of a list is the sum of the counts of any two parts it splits into |
| TextGates.IsLowQualityText | pdf_extractor.py:511-535 | a text under 50 stripped characters is low quality; a longer one is low quality exactly when it has more than five lines with over 80% short, or more than ten words with over 30% suspicious |
| TextGates.SuspiciousTextIsLowQuality | pdf_extractor.py:525-533 | more than ten words, over 30% suspicious, make the text low quality |
| TextGates.AcceptableTextIsNotLowQuality | pdf_extractor.py:511-535 | at least 50 stripped characters, at most 80% short lines and at most 30% suspicious words make the text acceptable |
| TextGates.AllShortLines | pdf_extractor.py:520 | when every line strips to fewer than 10 characters, all lines count |
| TextGates.FragmentedTextIsLowQuality | pdf_extractor.py:517-523 | a text of more than five lines, all short, is low quality |
| TextGates.MarkersPresent | pdf_extractor.py:550-553 | at most one count per marker |
| TextGates.CountRedactionMarkers | pdf_extractor.py:544-553 | the loop counts exactly the case-insensitive markers present, at most three |
| TextGates.PlaceholderTokens | pdf_extractor.py:558 | the number of `000-111` words is at most the number of words |
| TextGates.IsRedactedPdf | pdf_extractor.py:537-564 | the method computes the redaction predicate (short text, placeholder majority, markers and word count) |
| TextGates.Redacted | pdf_extractor.py:537-564 | never redacted under 100 stripped characters; redacted only through a placeholder majority among more than 50 words, or through two markers |
| TextGates.PlaceholderMajorityIsRedacted | pdf_extractor.py:556-561 | more than 50 words, over half `000-111`, make a long enough text redacted |
| TextGates.MarkedTextIsRedacted | pdf_extractor.py:550-564 | two markers in a long enough text of fewer than 200 words make it redacted |
| TextGates.LongTextNeedsPlaceholders | pdf_extractor.py:557-564 | a text of at least 200 words in which at most half the words are `000-111` is not redacted, whatever markers it holds |
| TextGates.AllPlaceholders | pdf_extractor.py:558 | when every word is `000-111`, every word counts |
| TextGates.PlaceholderTextIsRedacted | pdf_extractor.py:539-561 | a long text of more than 50 words, all `000-111`, is redacted |
| TextGates.RedactedNotice | pdf_extractor.py:566-578 | the notice has exactly the 41 listed keys, each mapped to the redaction message |
| TextGates.ChosenText | pdf_extractor.py:89-95 | good layer text is kept; low-quality layer text is replaced by non-empty OCR text; empty OCR text keeps the layer text |
| Biomarkers.ParseDecimal | pdf_extractor.py:476-480 | a `[0-9.]+` capture parses exactly when it has at most one dot and a digit; the value is non-negative and equals the digits' value for a pure digit string |
| Biomarkers.DottedValue | pdf_extractor.py:479-485 | `ip.frac` reads as the digits of `ip` and `frac` together divided by ten to the number of places after the dot ("74.9" is 749 / 10), the value compared with 75 |
| Biomarkers.DigitsValueAppend | pdf_extractor.py:480 | appending digits shifts the value of the digits before them by one place each |
| Biomarkers.ParseCases | pdf_extractor.py:476-478 | a one-dot capture parses exactly when its fraction is all digits and one side is non-empty |
| Biomarkers.Reading | pdf_extractor.py:475-480 | a pattern gives a reading exactly when it matches and its capture has at most one dot and a digit; the reading is non-negative |
| Biomarkers.FirstReading | pdf_extractor.py:472-480 | there is no reading exactly when no pattern's capture parses |
| Biomarkers.Parsed | pdf_extractor.py:472-480 | flag k says whether pattern k's capture parses as a float |
| Biomarkers.FirstReadingIsFirstParsed | pdf_extractor.py:472-480 | the reading is the one of the first pattern whose capture parses; a `ValueError` moves on to the next pattern |
| Biomarkers.Folr1Interpretation | pdf_extractor.py:463-494 | with a reading, "positive" exactly when it is at least 75, else "negative"; without one, "positive" exactly when the positive label matches (it is tried before the negative label); "N/A" exactly when no reading and no label |
| Biomarkers.Folr1Pin85 | test_functionality.py:120-126 | "85" is positive |
| Biomarkers.Folr1Pin75 | test_functionality.py:120-126 | "75" is positive: the threshold is inclusive |
| Biomarkers.Folr1Pin60 | test_functionality.py:120-126 | "60" is negative |
| Biomarkers.Folr1Pin749 | pdf_extractor.py:476-480 | "74.9" is negative |
| Biomarkers.Folr1PinAbsent | test_functionality.py:120-126 | no percentage and no label gives "N/A" |
| Biomarkers.Folr1SkipsUnparsable | pdf_extractor.py:476-480 | an unparsable first capture ("1.2.3") hands over to the next pattern's "80", which is positive |
| Biomarkers.Pdl1Text | pdf_extractor.py:1119-1124 | the result text is the percentage, then "% Tumor proportion score", then one 11-character suffix |
| Biomarkers.Pdl1SuffixIff | pdf_extractor.py:1121-1124 | the text ends in " (Negative)" exactly when the percentage holds '<' or its first integer is below 1, and in " (Positive)" exactly otherwise |
| Biomarkers.Pdl1Results | pdf_extractor.py:1108-1131 | there is no result exactly when no pattern matches; a result always names the 22C3 antibody |
| Biomarkers.Pdl1FromFirstMatch | pdf_extractor.py:1116-1129 | the result is built from the stripped capture of the first pattern that matches |
| Biomarkers.Pdl1LessThanOneIsNegative | pdf_extractor.py:1121 | "< 1" is negative |
| Biomarkers.Pdl1ZeroIsNegative | pdf_extractor.py:1121 | "0" is negative |
| Biomarkers.Pdl1FiftyIsPositive | pdf_extractor.py:1121-1124 | "50" is positive |
| VariantRecord.BlankVariant | pdf_extractor.py:1305-1323 | a fresh record carries its gene, "DNA", and "N/A" in every other key |
| VariantRecord.SplitColumns | pdf_extractor.py:1165 | the split gives at least one part; the first part is a prefix of the line; no part contains a tab or a run of two whitespace characters |
| VariantRecord.SplitColumnsJoin | pdf_extractor.py:1165 | the columns are the pieces of the line: joined with the separators the split removed (each a lone tab or a run of two or more whitespace characters) they give back the line, and each later column starts after a whole separator run |
| VariantRecord.OneColumnLine | pdf_extractor.py:1165 | a line with no tab and no two adjacent whitespace characters is a single column, the line itself |
| VariantRecord.ClinVarLabel | pdf_extractor.py:1253-1262 | "pathogen" gives Pathogenic, else "vus" or "uncertain" gives the VUS label, else "benign" gives Benign, else the column is kept |
| VariantRecord.GeneField | pdf_extractor.py:1217-1221 | the gene is set exactly when the first column has the gene shape, and then it is that column |
| VariantRecord.AlterationFields | pdf_extractor.py:1224-1237 | an empty alteration sets nothing; a `c.`/`p.` shape goes to cDNA, else an amino-acid shape goes to amino acid, else any alteration containing `c.` or `p.` anywhere (such as "del c.123") goes to cDNA, and the rest to amino acid |
| VariantRecord.ColumnTranscript | pdf_extractor.py:1265-1268 | the transcript is column six exactly when that column is non-empty and contains `NM_`, else "N/A" |
| VariantRecord.TranscriptField | pdf_extractor.py:1265-1280 | the column transcript wins; when it is "N/A", the line search's capture is used if there is one; otherwise "N/A" |
| VariantRecord.LocationField | pdf_extractor.py:1240-1243 | a location that is set is the third column and mentions an exon or is a number; a non-empty accepted third column is always taken |
| VariantRecord.AlleleField | pdf_extractor.py:1246-1250 | the VAF is the first number anywhere in the fourth column, and "N/A" exactly when the column has no digit |
| VariantRecord.SignificanceField | pdf_extractor.py:1253-1262 | an empty fifth column gives "N/A"; otherwise its ClinVar label |
| VariantRecord.TypeField | pdf_extractor.py:1271-1274 | the type is the seventh column when non-empty, else "N/A" |
| VariantRecord.RowCopyNumber | pdf_extractor.py:1283-1285 | the copy number is the first 2-3 digit number of the line when it lies strictly between 10 and 200, else "N/A" |
| VariantRecord.MutationRow | pdf_extractor.py:1194-1287 | the record is DNA with untouched trailing keys, and exactly one of cDNA or amino acid is set when the alteration column is non-empty |
| VariantRecord.ParseMutationRow | pdf_extractor.py:1194-1287 | the method fills the record key by key into exactly the row function's record |
| VariantRecord.FillGene | pdf_extractor.py:1217-1221 | only the gene key changes |
| VariantRecord.FillAlteration | pdf_extractor.py:1224-1237 | only the cDNA and amino-acid keys change |
| VariantRecord.FillLocation | pdf_extractor.py:1240-1243 | only the location key changes |
| VariantRecord.FillAllele | pdf_extractor.py:1246-1250 | only the allele-fraction key changes |
| VariantRecord.FillSignificance | pdf_extractor.py:1253-1262 | only the significance key changes |
| VariantRecord.FillColumnTranscript | pdf_extractor.py:1265-1268 | only the transcript key changes |
| VariantRecord.FillType | pdf_extractor.py:1271-1274 | only the variant-type key changes |
| VariantTable.MarkerSection | pdf_extractor.py:1177-1192 | "" when no section pattern matches; otherwise the whole match of a section pattern |
| VariantTable.SectionOrText | pdf_extractor.py:1138-1140 | the marker section when one is found, else the whole text |
| VariantTable.InOrderSuffix | pdf_extractor.py:1148 | keywords found in order in a line stay in order when text follows |
| VariantTable.EarliestSuffices | pdf_extractor.py:1148 | an in-order match may take the first keyword at its earliest occurrence |
| VariantTable.FirstWhere | pdf_extractor.py:1147-1153 | the index found satisfies the test, and no earlier index does |
| VariantTable.FirstHeader | pdf_extractor.py:1146-1153 | the header index is the first line matching either header pattern, or none |
| VariantTable.TableRow | pdf_extractor.py:1159-1169 | a kept row has a gene of gene shape other than "N/A", and DNA |
| VariantTable.KeptRowsNamed | pdf_extractor.py:1158-1169 | every kept record comes from one of the window's lines and has a named gene |
| VariantTable.Window | pdf_extractor.py:1158 | the window is the up to nine lines after the header |
| VariantTable.TableRows | pdf_extractor.py:1156-1169 | at most nine records, none without a header |
| VariantTable.TableRowsNamed | pdf_extractor.py:1156-1169 | every table record has a named gene |
| VariantTable.OnlyWindowMatters | pdf_extractor.py:1146-1169 | appending lines after a found header's window changes no table record |
| VariantTable.GeneAt | pdf_extractor.py:1297 | at a position, the first alternative that matches with word boundaries, as the text spells it; none exactly when no alternative matches there |
| VariantTable.MentionFrom | pdf_extractor.py:1297 | the first mention from a position spells a common gene; none exactly when no common gene is mentioned from there on |
| VariantTable.FirstMention | pdf_extractor.py:1297-1299 | a line's first mention spells a common gene; none exactly when the line mentions none |
| VariantTable.MentionFromLeftmost | pdf_extractor.py:1297 | the mention found from a position is the gene mentioned at the leftmost position at or after it where any common gene is mentioned, spelled as the text spells it there |
| VariantTable.FirstMentionLeftmost | pdf_extractor.py:1297-1299 | `re.search` on a line gives the line's leftmost mention |
| VariantTable.MentionedAmong | pdf_extractor.py:1380-1382 | a gene is kept exactly when it is listed and mentioned |
| VariantTable.FindMentionedGenes | pdf_extractor.py:1375-1384 | a gene is returned exactly when it is a common gene mentioned in the text |
| VariantTable.MentionedAmongOrdered | pdf_extractor.py:1380-1382 | the kept genes keep the list order and are distinct when the list is |
| VariantTable.FindMentionedGenesOrdered | pdf_extractor.py:1377-1384 | the mentioned genes come in list order, without repeats |
| VariantTable.CommonGenesDistinct | pdf_extractor.py:1377 | the common-gene list has no repeats |
| VariantTable.FirstMentionIffMentioned | pdf_extractor.py:1297 | a line has a first mention exactly when the mention finder finds a gene in it |
| VariantTable.CaptureOr | pdf_extractor.py:1334-1346 | a match overwrites the key; no match keeps the previous value |
| VariantTable.ExonOr | pdf_extractor.py:1349-1351 | an exon match sets "exon" plus the number; otherwise the previous location |
| VariantTable.ContextType | pdf_extractor.py:1354-1357 | deletion and frameshift gives Deletion-Frameshift, else substitution and missense gives Substitution-Missense; with neither cue the previous type is kept |
| VariantTable.ContextSignificance | pdf_extractor.py:1360-1363 | "pathogenic" gives Pathogenic, else "vus" or "unknown significance" gives the VUS label; with no cue the previous value is kept |
| VariantTable.ContextCopyNumber | pdf_extractor.py:1371-1373 | the first 2-3 digit number of the context replaces the copy number exactly when it is above 10; otherwise the previous value is kept |
| VariantTable.ContextDetails | pdf_extractor.py:1331-1373 | gene and nucleic acid are kept, and the trailing keys stay "N/A" |
| VariantTable.ExtractVariantDetailsFromContext | pdf_extractor.py:1331-1373 | the method's key-by-key updates give exactly the context record |
| VariantTable.FillContextCaptures | pdf_extractor.py:1333-1351 | only transcript, cDNA, amino acid and location change, each by its search |
| VariantTable.FillContextCues | pdf_extractor.py:1353-1363 | only type and significance change, by their cues |
| VariantTable.FillContextNumbers | pdf_extractor.py:1365-1373 | only allele fraction and copy number change |
| VariantTable.FallbackUpTo | pdf_extractor.py:1295-1327 | the first n lines give at most n records |
| VariantTable.FallbackRecords | pdf_extractor.py:1295-1327 | every fallback record is DNA, with untouched trailing keys, for a common gene as the text spells it |
| VariantTable.Fallback | pdf_extractor.py:1289-1329 | at most one record per line; each is a DNA record for a common gene as the text spells it, with the seven keys no strategy fills (build, chromosome, dbSNP, COSMIC, depth, genotype, zygosity) at "N/A"; the other keys come from the line's context |
| VariantTable.CommonGeneNotNA | pdf_extractor.py:1297 | a common gene, however the text spells it, is never "N/A" |
| VariantTable.FallbackNamed | pdf_extractor.py:1289-1329 | every fallback record has a gene other than "N/A" |
| VariantTable.FallbackOnePerMention | pdf_extractor.py:1295-1327 | a line without a mention adds nothing, and a line with one adds exactly one record, for the line's first (leftmost) mention |
| VariantTable.FallbackGeneExtraction | pdf_extractor.py:1289-1329 | the loop builds exactly the per-line fallback records |
| VariantTable.TableBeforeFallback | pdf_extractor.py:1133-1175 | table rows win (at most nine, all named); the fallback runs on the section only when the header scan kept nothing |
| VariantTable.VariantTableOf | pdf_extractor.py:1133-1175 | every record of the table parse, from the table or from the fallback, has a gene other than "N/A" |
| VariantTable.ParseVariantTable | pdf_extractor.py:1133-1175 | the method returns exactly the records the table-or-fallback definition gives |
| VariantTable.FindHeader | pdf_extractor.py:1146-1153 | the scan returns the first header line |
| VariantTable.ReadRows | pdf_extractor.py:1156-1169 | the loop keeps exactly the window's parsed rows with a gene |
| VariantTable.ReadRow | pdf_extractor.py:1159-1169 | the method parses one line exactly as the row definition does |
| GeneticVariants.Group | pdf_extractor.py:1022-1038 | a group counts exactly when the pattern has it and it captured non-empty text |
| GeneticVariants.GroupOrSearch | pdf_extractor.py:1021-1043 | the group's capture when present, else the search over the match plus 200 characters, else "N/A" |
| GeneticVariants.RegexSignificance | pdf_extractor.py:1053-1058 | Pathogenic, then VUS, then Benign, by the first cue present; "N/A" without one |
| GeneticVariants.RegexType | pdf_extractor.py:1060-1067 | the first cue in order decides: deletion with frameshift, then substitution with missense, then insertion, then deletion; "N/A" exactly when none applies |
| GeneticVariants.MatchVariant | pdf_extractor.py:1001-1078 | a match's record carries the matched gene and DNA, and its significance and type come from the 300-character surroundings |
| GeneticVariants.AddMatches | pdf_extractor.py:995-1080 | records are only appended, at most one per match |
| GeneticVariants.RunPatterns | pdf_extractor.py:993-1080 | the pattern phase only appends to the table records |
| GeneticVariants.AddMatchesCovers | pdf_extractor.py:995-1080 | after one pattern's matches, every match's gene is present: a match with a new gene is added |
| GeneticVariants.RunPatternsCovers | pdf_extractor.py:993-1080 | after all patterns, the gene of every match of every pattern is present |
| GeneticVariants.AddMatchesFresh | pdf_extractor.py:996-999 | an added record's gene is not the gene of any record before it |
| GeneticVariants.RunPatternsFresh | pdf_extractor.py:993-1080 | after all patterns, the genes from position k on are new |
| GeneticVariants.AddedFromMatches | pdf_extractor.py:995-1080 | every added record is the record of one of the matches |
| GeneticVariants.FirstMentioned | pdf_extractor.py:1084-1085 | the first at most three mentioned genes |
| GeneticVariants.BlankVariants | pdf_extractor.py:1085-1104 | one blank record per mentioned gene, in order |
| GeneticVariants.FirstMentionedOrdered | pdf_extractor.py:1083-1085 | these genes are distinct, in list order, and each is mentioned |
| GeneticVariants.AfterTable | pdf_extractor.py:979-1106 | at most five records |
| GeneticVariants.GeneticVariantsOf | pdf_extractor.py:972-1106 | at most five records |
| GeneticVariants.CutExtension | pdf_extractor.py:1106 | cutting at five keeps the table prefix and the fresh genes |
| GeneticVariants.AfterTableOrder | pdf_extractor.py:977-1106 | the first min(5, table size) table records open the result unchanged; later genes are fresh; when the pattern phase found something the result is its first five records, and otherwise the blank records of the first mentions |
| GeneticVariants.CascadeOrder | pdf_extractor.py:972-1106 | the first min(5, size) records of the table parse open the result unchanged; later genes are fresh; a non-empty table parse gives a non-empty result; when the pattern phase found something the result is its first five records |
| GeneticVariants.RegexRecordsFromMatches | pdf_extractor.py:993-1080 | every added record is the record of a match of one of the four patterns |
| GeneticVariants.AnyWithGene | pdf_extractor.py:998 | the loop answers exactly whether a record already has the gene |
| GeneticVariants.AddPatternMatches | pdf_extractor.py:995-1080 | the loop over one pattern's matches gives the append definition |
| GeneticVariants.AddAllPatterns | pdf_extractor.py:993-1080 | the loop over the patterns gives the pattern phase |
| GeneticVariants.MentionedVariants | pdf_extractor.py:1083-1104 | the loop gives the blank records of the first three mentions |
| GeneticVariants.ExtractGeneticVariants | pdf_extractor.py:972-1106 | the method returns exactly the cascade's records |
| Records.Assign | pdf_extractor.py:139-423 | the record's keys are exactly the assigned keys |
| Records.AssignAt | pdf_extractor.py:139-423 | with distinct keys, every key holds the value assigned to it |
| Records.AssignValues | pdf_extractor.py:139-423 | every value of the record was assigned to its key |
| Records.GeneticPairs | pdf_extractor.py:127-425 | one assignment per field, of that field's resolved value |
| Records.GeneticReport | pdf_extractor.py:127-425 | the record has exactly the 37 keys, each "N/A" or a normalised non-empty value |
| Records.GeneticKeysDistinct | pdf_extractor.py:139-423 | the 37 keys are distinct |
| Records.GeneticValue | pdf_extractor.py:127-425 | key i holds the result of its field's rules |
| Records.WithoutPlainTail | pdf_extractor.py:336-350 | dropping trailing group-less rules keeps the capturing prefix |
| Records.PlainRulesNeverDecide | pdf_extractor.py:336-423 | every key is decided by its capturing rules alone |
| Records.CutoffValue | pdf_extractor.py:448-450 | the primary cut-off rule wins; when it gives "N/A", the fallback rule decides |
| Records.SinglePairs | pdf_extractor.py:432-459 | one assignment per key, of that rule's extracted value |
| Records.IhcPairs | pdf_extractor.py:427-461 | 14 assignments with the IHC keys in order; the cut-off and the FOLR1 interpretation sit at positions 8 and 9, and each other key is paired with `extract_pattern` of its own rule, default "N/A" |
| Records.IhcReport | pdf_extractor.py:427-461 | the record has exactly the 14 keys, and the interpretation is positive, negative or "N/A" |
| Records.IhcValue | pdf_extractor.py:432-459 | each of the twelve single-rule keys (Disease_name … Score_percent_positive, Reporting_date … Gender) holds `extract_pattern` of its own rule with default "N/A" |
| Records.IhcLaterKeys | pdf_extractor.py:448-459 | no later key overwrites the cut-off or the interpretation |
| Records.IhcCutoffAndInterpretation | pdf_extractor.py:448-453 | the record's cut-off and interpretation are the cut-off value and the FOLR1 interpretation |
| Records.ExtractData | pdf_extractor.py:88-120 | the chosen text decides; a redacted text gives both notices and the notice text; otherwise both records, with their full key sets |
| Records.BothRecordsBuilt | pdf_extractor.py:112-120 | a text that is not redacted yields both the genetic and the IHC record |
| Records.PlaceholderDocumentRedacted | pdf_extractor.py:98-106 | a document of more than 50 words, all `000-111`, gets the notice in every field |
| Rows.Cells | pdf_extractor.py:800-809 | a row gives the 38 declared columns in order |
| Rows.SubjectId | pdf_extractor.py:777-779 | "000-111" exactly when no ID was found or the one found contains it; otherwise the one found |
| Rows.TrialId | pdf_extractor.py:781-783 | "LY-1234" when no trial ID was found, else the one found |
| Rows.ReportMeta | pdf_extractor.py:777-798 | subject and trial IDs come from the field resolver with the placeholder rules |
| Rows.Backfilled | pdf_extractor.py:815-819 | a record with a gene keeps it; one without takes the Gene field |
| Rows.BackfillAll | pdf_extractor.py:815-819 | each record is backfilled, in order |
| Rows.VariantRow | pdf_extractor.py:824-866 | an NGS row with the subject and the variant's gene, and no PD-L1 data |
| Rows.Pdl1Row | pdf_extractor.py:869-911 | an IHC row with the subject, no gene, and the PD-L1 antibody and result |
| Rows.DefaultRow | pdf_extractor.py:914-931 | an NGS DNA row with the subject, no gene, and sensitivity, specificity and PD-L1 at "N/A" |
| Rows.FoundRows | pdf_extractor.py:822-911 | one row per variant in order, then the PD-L1 row when there is a result |
| Rows.RowsFor | pdf_extractor.py:822-931 | the row list is never empty |
| Rows.RowVariants | pdf_extractor.py:812-819 | at most five backfilled variants |
| Rows.ClinicalRows | pdf_extractor.py:764-931 | the row list is never empty |
| Rows.RowLayout | pdf_extractor.py:822-931 | 1 to 6 rows; the default row alone exactly when there are no variants and no PD-L1; NGS rows per variant, then the IHC row last; every row has the subject |
| Rows.SubjectIdsNormalised | pdf_extractor.py:777-779 | every row's subject is "000-111" exactly when none was found or the one found contains it |
| Rows.ClinicalRowsShape | pdf_extractor.py:764-931 | 1 to 6 rows, assembled from the report metadata, the backfilled variants and the PD-L1 result |
| Rows.Pdl1RowSuffix | pdf_extractor.py:869-911 | the IHC row follows the variants, and its result ends in " (Negative)" exactly when the first match's stripped percentage reads negative |
| Rows.BackfillGenes | pdf_extractor.py:815-819 | the loop gives the backfilled records |
| Rows.AppendRows | pdf_extractor.py:822-911 | the loop gives the variant rows and the PD-L1 row |
| Rows.BuildRows | pdf_extractor.py:822-931 | the method gives the row list, with the default row when needed |
| Rows.CreateRows | pdf_extractor.py:764-931 | the method returns exactly the spreadsheet rows |

## Left out

- Text extraction with pdfplumber (`pdf_extractor.py:40-87`): the model starts from the text-layer string.
- OCR (`pdf_extractor.py:25-32`, `pdf_extractor.py:580-714`): its text is a parameter of `Records.ExtractData`.
- Writing the Excel workbook, and the sheets per record (`pdf_extractor.py:724-762`, `pdf_extractor.py:933-963`): the model stops at the row list.
- Logging, and the `try`/`except` around the whole pipeline that returns an error record (`pdf_extractor.py:122-124`): Dafny has no exceptions in these functions. The two exceptions with a visible effect are modelled: the `IndexError` of a rule without a group (the default is returned), and the `ValueError` of `float()` on a FOLR1 capture such as "1.2.3" (the next pattern is tried; `ParseDecimal` returns None and `Folr1SkipsUnparsable` shows the hand-over).
- Per-page texts: nothing in the core reads them.
- The web application (`app.py`) and the test and debug scripts. The FOLR1 cases of `test_functionality.py` are stated as lemmas.
- The full semantics of Python regular expressions: lazy, `DOTALL` and backtracking patterns are abstract functions, so no lemma speaks about what they match.
- Python `float()` edge cases: exponents, `inf` and `nan` cannot arise from a `[0-9.]+` capture. Rounding to binary floating point is not modelled; a percentage is an exact decimal.
- Unicode case folding and Unicode digits: case folding, `\w` and `\d` are ASCII only.
- VariantTable.MarkerSection: states that a found section is the match of some section pattern. That it is the first pattern's match follows from `FirstFound` in `Text`.
- VariantRecord.MutationRow: states the record's invariants. Each key is stated exactly by its field function (`GeneField` … `TypeField`) and by `ParseMutationRow`.
