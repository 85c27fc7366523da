# ESG KPI extraction platform — a verified model of its core

The platform reads a sustainability report and fills in a fixed schema of key
performance indicators (KPIs): greenhouse-gas emissions, energy use, water use
and so on. Each KPI has a code, a list of allowed units and synonyms. Several
extractors propose raw values and units: regular expressions, sentence
matching, table readers and a language model. Normalizers then parse the raw
text into numbers and settle each unit on one the schema allows. A fusion step
picks one answer per KPI.

This project models that core in Dafny and proves what the code promises.
It models the `esg` package, which is the generation the pipeline runs:
- its numeric parser;
- its regex, sentence, plain-table, grid-table and LLM extractors;
- its normalizers and scoring;
- the fusion pipeline.

It also models `clean_text`, the text cleaner of `esg_system`. Of the earlier
`esg_user` generation, it models only the markdown-fence stripping of the LLM
reply, as a reference definition. The rest of `esg_user` and all of `esg_v2`
are listed under "Left out".

- Python strings are `seq<char>`. The Python `str` operations are written out
  in `PyStr`, and `float()` on decimal text in `PyFloat`.
- Python dicts keep their insertion order. `Dicts.Dict` is a key sequence plus
  a map, and `Put` follows the semantics of `d[k] = v`.
- Loosely typed values, such as JSON documents and extractor records, are
  `PyValues.PyVal`.
- A Python exception is the `Raised` case of `Wrappers.Outcome`.
- Every loop of the form `out = {}; for k in keys: ... out[k] = ...` is a
  method whose result is proved equal to `Dicts.BuildOutcome`. The properties
  are lemmas about that function.
- The chat service and `json.loads` are oracles passed in as parameters.

## Model

| member | source | states |
|---|---|---|
| EsgNumericParser.SpacesNormalized | src/esg/utils/numeric_parser.py:8-20 | each no-break, figure or narrow no-break space becomes an ASCII space and nothing else changes |
| EsgNumericParser.NormalizeSpaces | src/esg/utils/numeric_parser.py:16-20 | the replace loop over the four space characters computes SpacesNormalized |
| EsgNumericParser.SpacesNormalizedSpec | src/esg/utils/numeric_parser.py:16-20 | no space variant but the ASCII space is left, and normalizing twice changes nothing |
| EsgNumericParser.ParseLocaleNumber | src/esg/utils/numeric_parser.py:23-43 | None or blank text parses to None |
| EsgNumericParser.NbspParsesLikeSpace | src/esg/utils/numeric_parser.py:36-41 | text with no-break or narrow spaces parses exactly like the same text with ASCII spaces |
| EsgNumericParser.GroupedThousandsParse | src/esg/utils/numeric_parser.py:51-63 | "1,200,000", "1.200.000" and "1 200 000" read as the whole number they group |
| EsgNumericParser.TrailingPointParse | src/esg/utils/numeric_parser.py:45-46 | trailing points are dropped first, so "1200000." reads as 1200000 |
| EsgNumericParser.LocaleCasesDigits | src/esg/utils/numeric_parser.py:65-70 | a digit string reads as the number it denotes |
| EsgNumericParser.DecimalSeparatorParse | src/esg/utils/numeric_parser.py:72-77 | one point or comma that does not start a three-digit group is a decimal separator: "123,45" reads as 123.45 |
| EsgNumericParser.ThousandsNeedSeparator | src/esg/utils/numeric_parser.py:52 | a thousands form without a separator is a single group of at most three digits |
| EsgNumericParser.ScaledStructure | src/esg/utils/numeric_parser.py:87-119 | a scaled parse is the locale parse of the text without magnitude words, times the first magnitude found |
| EsgNumericParser.ScaledBlankIsNone | src/esg/utils/numeric_parser.py:95-100 | blank text is no number, with or without a magnitude |
| EsgNumericParser.PlainScaledIsLocale | src/esg/utils/numeric_parser.py:102-115 | text without magnitude letters parses exactly as with the locale parser |
| EsgNumericParser.ScaleWordParse | src/esg/utils/numeric_parser.py:103-119 | "million", "billion" or "thousand" after a plain number multiplies that number's parse by its magnitude |
| EsgNumericParser.ScaleKParse | src/esg/utils/numeric_parser.py:109-119 | a trailing "k" multiplies the parse of the number before it by a thousand |
| UnitMatch.NormJoinedCanonical | src/esg/normalization/table_plain_normalizer.py:9-11 | the plain-table unit key holds no whitespace, no upper-case letter and no superscript three |
| UnitMatch.NormJoinedIdempotent | src/esg/normalization/table_plain_normalizer.py:9-11 | the plain-table unit key of a key is that key |
| UnitMatch.CubicMetreSpellings | src/esg/normalization/regex_normalizer.py:46-48 | "m³", "M3" and "m 3" share the key "m3" |
| UnitMatch.FirstNormMatch | src/esg/normalization/table_grid_normalizer.py:71-76 | the match is an allowed unit with the raw unit's key, and there is none exactly when no allowed unit has that key |
| UnitMatch.FirstNormMatchIsFirst | src/esg/normalization/table_grid_normalizer.py:73-76 | the loop stops at the first allowed unit with a matching key |
| UnitMatch.FindUnit | src/esg/normalization/table_grid_normalizer.py:72-76 | the loop with `break` returns FirstNormMatch |
| EsgRegexNormalizer.NormalizeUnit | src/esg/normalization/regex_normalizer.py:51-91 | without a canonical unit the raw unit is kept unscaled; with one the canonical unit is returned, and a factor other than 1 comes only from the conversion table |
| EsgRegexNormalizer.ExactUnitNoScaling | src/esg/normalization/regex_normalizer.py:75-77 | a raw unit whose key equals the canonical unit's gives that unit with factor 1 |
| EsgRegexNormalizer.AliasConverts | src/esg/normalization/regex_normalizer.py:79-83 | a tabled alias of the canonical unit gives the canonical unit and the alias's factor |
| EsgRegexNormalizer.ForeignAliasKeepsValue | src/esg/normalization/regex_normalizer.py:79-91 | a tabled alias of another unit falls back to the canonical unit with factor 1 |
| EsgRegexNormalizer.EnergyConversions | src/esg/normalization/regex_normalizer.py:33-35 | kWh converts to MWh by 0.001 and GWh by 1000 |
| EsgRegexNormalizer.NormalizeRegexResult | src/esg/normalization/regex_normalizer.py:98-153 | the loop over the extractor's results computes BuildOutcome over RegexEntry |
| EsgRegexNormalizer.RegexEntryOk | src/esg/normalization/regex_normalizer.py:119-151 | an entry whose raw fields are strings or None never raises and is always kept |
| EsgRegexNormalizer.RegexEntryKeepsFields | src/esg/normalization/regex_normalizer.py:136-151 | every field other than value and unit is carried through unchanged |
| EsgRegexNormalizer.RegexEntryUnparsed | src/esg/normalization/regex_normalizer.py:130-141 | unparsable text gives value None and the canonical unit |
| EsgRegexNormalizer.RegexEntryParsed | src/esg/normalization/regex_normalizer.py:143-151 | a parsed value is multiplied by the unit's conversion factor |
| EsgRegexNormalizer.RegexEntryRecord | src/esg/normalization/regex_normalizer.py:136-151 | the record is the entry with value and unit set |
| EsgRegexNormalizer.NormalizeRegexKeys | src/esg/normalization/regex_normalizer.py:117-153 | on string fields the output has exactly the input's keys, in order |
| EsgTableGridNormalizer.GridValue | src/esg/normalization/table_grid_normalizer.py:56-59 | a reported number wins; otherwise the raw text is parsed; only a truthy non-string raw value raises |
| EsgTableGridNormalizer.GridUnit | src/esg/normalization/table_grid_normalizer.py:64-86 | the unit is always allowed; a sole allowed unit is always chosen; a found value always gets a unit when any is allowed; only a truthy non-string raw unit raises |
| EsgTableGridNormalizer.ResolveGridUnit | src/esg/normalization/table_grid_normalizer.py:64-86 | the stepwise updates of `unit` compute GridUnit |
| EsgTableGridNormalizer.ReportedUnitWins | src/esg/normalization/table_grid_normalizer.py:66-68 | an allowed reported unit is taken whatever the raw unit says |
| EsgTableGridNormalizer.RawUnitMatchWins | src/esg/normalization/table_grid_normalizer.py:70-76 | otherwise the first allowed unit matching the raw unit is taken |
| EsgTableGridNormalizer.NoValueNoUnit | src/esg/normalization/table_grid_normalizer.py:78-86 | without a value or a usable unit, a KPI with several units stays without one |
| EsgTableGridNormalizer.NormalizeTableGridResult | src/esg/normalization/table_grid_normalizer.py:17-96 | the loop computes BuildOutcome over GridEntry |
| EsgTableGridNormalizer.GridEntrySkipsEmpty | src/esg/normalization/table_grid_normalizer.py:42-43 | a falsy entry is skipped |
| EsgTableGridNormalizer.GridEntryRecord | src/esg/normalization/table_grid_normalizer.py:45-94 | the record has the five fields in order, carries the raw fields, and defaults its confidence to 0.9 |
| EsgTableGridNormalizer.NormalizeTableGridKeys | src/esg/normalization/table_grid_normalizer.py:39-96 | the output keeps exactly the truthy entries, in order, each with no unit or an allowed one |
| FallbackNormalizer.FallbackUnit | src/esg/normalization/table_plain_normalizer.py:47-60 | the unit is allowed, a sole unit is always taken, any other unit has the raw unit's key, and only a looked-at non-string raw unit raises |
| FallbackNormalizer.ResolveFallbackUnit | src/esg/normalization/nlp_normalizer.py:48-60 | the stepwise updates of `unit` compute FallbackUnit |
| FallbackNormalizer.RawUnitMatches | src/esg/normalization/nlp_normalizer.py:51-56 | a matching raw unit selects the first matching allowed unit, even over a sole unit |
| FallbackNormalizer.NormalizeWith | src/esg/normalization/nlp_normalizer.py:14-70 | the normalizing loop computes BuildOutcome over FallbackEntry |
| FallbackNormalizer.FallbackEntrySkipsEmpty | src/esg/normalization/nlp_normalizer.py:36-37 | a falsy entry is skipped |
| FallbackNormalizer.FallbackEntryRecord | src/esg/normalization/nlp_normalizer.py:39-68 | the record has the five fields in order, carries the raw fields, holds the parse and the resolved unit, and takes the default confidence when none is given |
| FallbackNormalizer.NormalizeWithKeys | src/esg/normalization/nlp_normalizer.py:33-70 | the output keeps exactly the truthy entries, in order, each with no unit or an allowed one |
| EsgTablePlainNormalizer.NormalizeTablePlainResult | src/esg/normalization/table_plain_normalizer.py:14-70 | the loop computes BuildOutcome over FallbackEntry with the locale parser, the whitespace-free key and confidence 0.5 |
| EsgTablePlainNormalizer.PlainIgnoresUnitWithoutSchemaUnits | src/esg/normalization/table_plain_normalizer.py:51 | without allowed units no raw unit is looked at, so none raises |
| EsgTablePlainNormalizer.PlainEntryValue | src/esg/normalization/table_plain_normalizer.py:40-45 | the value is the locale parse of the raw text and the confidence defaults to 0.5 |
| EsgTablePlainNormalizer.PlainSpacedUnitMatches | src/esg/normalization/table_plain_normalizer.py:51-56 | "M ³" selects "m3" among tCO2e and m3 |
| EsgNlpNormalizer.NormalizeNlpResult | src/esg/normalization/nlp_normalizer.py:14-70 | the loop computes BuildOutcome over FallbackEntry with the scaled parser, the space-free key and confidence 0.65 |
| EsgNlpNormalizer.NlpNonTextUnitRaises | src/esg/normalization/nlp_normalizer.py:51-52 | a truthy number as raw unit raises even without allowed units |
| EsgNlpNormalizer.NlpEntryValue | src/esg/normalization/nlp_normalizer.py:39-46 | the value is the scaled parse of the raw text and the confidence defaults to 0.65 |
| EsgLlmNormalizer.LlmTokenReplaceIsDead | src/esg/normalization/llm_normalizer.py:9-10 | the replacement of "Â³" after lower-casing never fires |
| EsgLlmNormalizer.SuperscriptUnitMissed | src/esg/normalization/llm_normalizer.py:9-10 | as written "m³" matches nothing among m3 and ML; with the intended key it selects m3 |
| EsgLlmNormalizer.LlmKeyReadsSuperscript | src/esg/normalization/llm_normalizer.py:9-10 | units the written key equates are equated by the intended key |
| EsgLlmNormalizer.NormalizeLlmResult | src/esg/normalization/llm_normalizer.py:13-69 | the loop computes BuildOutcome over FallbackEntry with the scaled parser, the intended key and confidence 0.75 |
| EsgLlmNormalizer.LlmEntryDefaults | src/esg/normalization/llm_normalizer.py:41 | an answer's confidence is 0.75 unless it carries one |
| EsgScoring.ValueQuality | src/esg/normalization/scoring.py:36-39 | 1 exactly when a value was parsed, 0 exactly when not |
| EsgScoring.UnitQuality | src/esg/normalization/scoring.py:41-47 | 1 exactly for a non-empty allowed unit, 0.7 exactly for a non-empty unit without allowed units, otherwise 0 |
| EsgScoring.SourceWeight | src/esg/normalization/scoring.py:52-60 | an unknown source weighs 1, and every weight lies in [0.85, 1.05] |
| EsgScoring.Clamp01 | src/esg/normalization/scoring.py:66-67 | the result lies in [0, 1] and equals its argument there |
| EsgScoring.ComputeExtractionScore | src/esg/normalization/scoring.py:7-75 | the score lies in [0, 1] and the report carries the three terms and the base confidence |
| EsgScoring.RawTermBounds | src/esg/normalization/scoring.py:62 | the weighted term lies in [0, 1] |
| EsgScoring.FullMarks | src/esg/normalization/scoring.py:62-67 | a value with an allowed unit scores the base confidence times the prior, capped at 1 |
| EsgScoring.NothingScoresZero | src/esg/normalization/scoring.py:62-67 | no value and no unit score 0 |
| EsgScoring.ScoreFollowsPrior | src/esg/normalization/scoring.py:52-67 | with a non-negative base, a larger prior never scores lower |
| NumberUnit.MatchAtSound | src/esg/extractors/regex_extractor.py:46-57 | a match the scanner reports at a start is a match of the grammar: a digit, a run of digits, separators and blanks, an optional scale word, blanks and a unit spelled up to case |
| NumberUnit.MatchAtComplete | src/esg/extractors/regex_extractor.py:46-57 | every way the grammar matches at a start is found there, and the scanner keeps the longest separator run, as the greedy quantifier does |
| NumberUnit.SearchSound | src/esg/extractors/regex_extractor.py:120 | what the search returns is a match of the grammar |
| NumberUnit.SearchLeftmost | src/esg/extractors/regex_extractor.py:120 | whenever the grammar matches, the search finds a match starting no later, and at the same start one with at least as long a run |
| NumberUnit.SearchFound | src/esg/extractors/regex_extractor.py:120-125 | the match found is leftmost, its stripped value group starts with a digit and its unit group spells its unit up to case |
| NumberUnit.NoUnitsNoMatch | src/esg/extractors/regex_extractor.py:36-38 | a pattern without units never matches |
| NumberUnit.GroupsOfMatch | src/esg/extractors/regex_extractor.py:124-125 | the stripped value group is non-empty and starts with the match's first digit; the unit group equals the unit up to case |
| NumberUnit.Dedup | src/esg/extractors/regex_extractor.py:41 | the same units, each once, first occurrence first |
| NumberUnit.DedupSameUnit | src/esg/extractors/regex_extractor.py:41-43 | dropping repeats does not change which unit the alternation matches at any position |
| NumberUnit.UnitsKeyRoundTrip | src/esg/extractors/regex_extractor.py:33-34 | units without a bar come back unchanged from joining with "\|\|" and splitting again |
| EsgRegexExtractor.PatternUnits | src/esg/extractors/regex_extractor.py:33-43 | the pattern's alternatives are the non-empty parts of the key, each once |
| EsgRegexExtractor.PatternUnitsPlain | src/esg/extractors/regex_extractor.py:62-74 | for units without a bar the alternatives are exactly the non-empty units |
| EsgRegexExtractor.ExtractKpisRegex | src/esg/extractors/regex_extractor.py:81-135 | the loop over the schema computes ExtractSpec: nothing for empty text, else one entry per KPI whose pattern matches the whitespace-collapsed text |
| EsgRegexExtractor.RegexReports | src/esg/extractors/regex_extractor.py:107-122 | a KPI is reported exactly when the text is not empty, the KPI lists units and its pattern matches the collapsed text |
| EsgRegexExtractor.MatchRecordIff | src/esg/extractors/regex_extractor.py:120-122 | `pattern.search` yields a record exactly when the pattern matches somewhere in the text |
| EsgRegexExtractor.MatchRecordLeftmost | src/esg/extractors/regex_extractor.py:120-133 | the record is built from a match no other match starts before |
| EsgRegexExtractor.RegexEntryHit | src/esg/extractors/regex_extractor.py:119-133 | the loop body yields the record of the leftmost match with the base confidence |
| EsgRegexExtractor.RegexFirstHit | src/esg/extractors/regex_extractor.py:119-133 | a reported KPI holds the stripped value and unit of the leftmost match and the base confidence |
| EsgRegexExtractor.RegexSkips | src/esg/extractors/regex_extractor.py:107-117 | empty text, or a KPI without units, yields no entry |
| EsgNlpExtractor.Chunks | src/esg/extractors/nlp_extractor.py:24 | the split always yields at least one chunk |
| EsgNlpExtractor.ChunksJoin | src/esg/extractors/nlp_extractor.py:23-24 | joining the chunks with single spaces gives back the collapsed text |
| EsgNlpExtractor.ChunksEndAtStops | src/esg/extractors/nlp_extractor.py:24 | every chunk but the last is non-empty and ends with ".", "!" or "?" |
| EsgNlpExtractor.ChunksNoInnerStop | src/esg/extractors/nlp_extractor.py:24 | no chunk holds a space right after a stop, so the text is cut at every such space; with `ChunksJoin` this fixes the chunks |
| EsgNlpExtractor.StrippedNonBlank | src/esg/extractors/nlp_extractor.py:25 | every sentence kept is non-empty and already stripped, each is the stripped form of a chunk, and every chunk that is not blank once stripped is kept |
| EsgNlpExtractor.SentencesSqueezed | src/esg/extractors/nlp_extractor.py:23-25 | every sentence is non-blank, stripped, and has no two whitespace characters in a row |
| EsgNlpExtractor.LowerAll | src/esg/extractors/nlp_extractor.py:40 | each synonym is lower-cased, in order |
| EsgNlpExtractor.SynonymsNonEmpty | src/esg/extractors/nlp_extractor.py:32-41 | a KPI always has synonyms: the schema's, or the code with "_" read as " " |
| EsgNlpExtractor.MentionsAny | src/esg/extractors/nlp_extractor.py:129 | the `any` over the synonyms tells whether the lower-cased sentence contains one |
| EsgNlpExtractor.ScanSentences | src/esg/extractors/nlp_extractor.py:128-158 | the sentence loop with `break` computes FirstHit |
| EsgNlpExtractor.ExtractKpisNlp | src/esg/extractors/nlp_extractor.py:86-160 | the extractor computes ExtractSpec: nothing without sentences, else one entry per KPI with a hit |
| EsgNlpExtractor.SentenceHitIff | src/esg/extractors/nlp_extractor.py:128-141 | a sentence yields a record exactly when it mentions a synonym and the pattern matches its window |
| EsgNlpExtractor.FirstHitFound | src/esg/extractors/nlp_extractor.py:128-158 | a record found comes from a qualifying sentence before which none qualifies, and is the record of the match in that sentence's window |
| EsgNlpExtractor.FirstHitMissing | src/esg/extractors/nlp_extractor.py:128-158 | when the scan finds nothing, no sentence qualifies |
| EsgNlpExtractor.FirstHitSpec | src/esg/extractors/nlp_extractor.py:128-158 | a KPI's scan finds a record exactly when some sentence qualifies, and then from the first one that does |
| EsgNlpExtractor.NlpReports | src/esg/extractors/nlp_extractor.py:102-158 | a KPI is reported exactly when there are sentences, it lists units and some sentence qualifies |
| EsgNlpExtractor.NlpFirstSentence | src/esg/extractors/nlp_extractor.py:128-158 | a reported KPI holds the record of the leftmost match in the window of the first qualifying sentence, with the base confidence |
| EsgNlpExtractor.NlpSkips | src/esg/extractors/nlp_extractor.py:102-119 | no sentences, or a KPI without units, yields no entry |
| EsgTableGridExtractor.NormText | src/esg/extractors/table_grid_extractor.py:26-31 | empty text normalizes to empty text, and every result is in normal form: lower-case letters and digits in runs separated by single spaces |
| EsgTableGridExtractor.NormTextClean | src/esg/extractors/table_grid_extractor.py:18-31 | text already in normal form is left unchanged |
| EsgTableGridExtractor.NormTextIdempotent | src/esg/extractors/table_grid_extractor.py:18-31 | normalizing twice gives the same text as normalizing once |
| EsgTableGridExtractor.NormAllClean | src/esg/extractors/table_grid_extractor.py:68 | every synonym kept is in normal form |
| EsgTableGridExtractor.NormAllKeepsClean | src/esg/extractors/table_grid_extractor.py:68 | a non-empty synonym already in normal form is kept |
| EsgTableGridExtractor.HardcodedSynonyms | src/esg/extractors/table_grid_extractor.py:40-68 | every hard-coded label text of a KPI, normalized, is one of its synonyms when it is not empty |
| EsgTableGridExtractor.BuildSynonyms | src/esg/extractors/table_grid_extractor.py:59-69 | one synonym list per schema code, in schema order, each that code's normalized synonyms |
| EsgTableGridExtractor.MakeSynonyms | src/esg/extractors/table_grid_extractor.py:64-69 | the loop over the schema computes BuildSynonyms |
| EsgTableGridExtractor.DetectCols | src/esg/extractors/table_grid_extractor.py:81-105 | the header loop computes Cols, whose columns are all valid indices or 0 |
| EsgTableGridExtractor.KpiColumn | src/esg/extractors/table_grid_extractor.py:89-91 | the KPI column is the last header cell with a KPI cue, else 0 |
| EsgTableGridExtractor.UnitColumn | src/esg/extractors/table_grid_extractor.py:92-93 | the unit column is the last header cell with a unit cue, else 1 when there are two cells or more, else 0 |
| EsgTableGridExtractor.ValueColumn | src/esg/extractors/table_grid_extractor.py:94-104 | the value column is the last cell with a value cue, else the first year-like cell "20dd", else 2 or the last cell |
| EsgTableGridExtractor.ParenGroupSpec | src/esg/extractors/table_grid_extractor.py:160-162 | a parenthesised group is found exactly when one exists, and it is the leftmost one's contents |
| EsgTableGridExtractor.RawUnitFromLabel | src/esg/extractors/table_grid_extractor.py:152-162 | with an empty unit cell or one holding a digit, the raw unit is the stripped contents of the leftmost parenthesised group in the KPI label, if there is one |
| EsgTableGridExtractor.RawUnit | src/esg/extractors/table_grid_extractor.py:152-156 | a non-empty unit cell without digits is the raw unit |
| EsgTableGridExtractor.ResolveUnit | src/esg/extractors/table_grid_extractor.py:164-176 | a resolved unit is an allowed unit; a raw unit whose key matches an allowed unit resolves to one with that key; a KPI with a single allowed unit always gets it |
| EsgTableGridExtractor.UnitFallback | src/esg/extractors/table_grid_extractor.py:173-176 | with no matching raw unit, a single allowed unit becomes both the raw and the final unit; otherwise the raw unit stays and there is no final unit |
| EsgTableGridExtractor.GridRecord | src/esg/extractors/table_grid_extractor.py:178-184 | the record holds the value text as raw value and value, the raw and final units, and confidence 0.9 |
| EsgTableGridExtractor.MatchCode | src/esg/extractors/table_grid_extractor.py:143-147 | the synonym loop with `break` computes MatchedCode |
| EsgTableGridExtractor.MatchedCodeSpec | src/esg/extractors/table_grid_extractor.py:143-149 | no code matches exactly when no code's synonym occurs in the label; otherwise the match is the first code in schema order whose synonym occurs |
| EsgTableGridExtractor.ReadRawUnit | src/esg/extractors/table_grid_extractor.py:152-162 | the unit steps compute RawUnit |
| EsgTableGridExtractor.CellsHitIff | src/esg/extractors/table_grid_extractor.py:133-149 | a row yields a hit exactly when its label and value cells are non-blank and its label matches a non-empty code, and the hit is that code's record |
| EsgTableGridExtractor.CodeHitRecord | src/esg/extractors/table_grid_extractor.py:151-184 | a hit holds the value text, confidence 0.9, and no unit or an allowed one, which is the single allowed unit when there is just one |
| EsgTableGridExtractor.ProcessRow | src/esg/extractors/table_grid_extractor.py:126-184 | the row body computes RowHit, skipping rows too short for the columns |
| EsgTableGridExtractor.ExtractTableGrid | src/esg/extractors/table_grid_extractor.py:112-186 | a table computes TableHits: `{}` under two rows, else the hits of the rows after the header |
| EsgTableGridExtractor.LastHitWins | src/esg/extractors/table_grid_extractor.py:125-184 | within a table a code is reported exactly when some row hits it, and the last such row's record is kept |
| EsgTableGridExtractor.AbsorbInto | src/esg/extractors/table_grid_extractor.py:215-217 | the first-hit loop computes Absorb |
| EsgTableGridExtractor.ExtractKpisTablesGrid | src/esg/extractors/table_grid_extractor.py:193-223 | the extractor computes GridSpec: `{}` when reading fails, else the first-hit merge of every table's hits |
| EsgTableGridExtractor.FirstResultWins | src/esg/extractors/table_grid_extractor.py:206-217 | across tables a code is reported exactly when some table reports it, and the first such table's record is kept |
| EsgTablePlainExtractor.SplitLines | src/esg/extractors/table_plain_extractor.py:65 | no line holds a line-break character |
| EsgTablePlainExtractor.Lines | src/esg/extractors/table_plain_extractor.py:65 | every line is non-empty and already stripped |
| EsgTablePlainExtractor.BlankTextNoLines | src/esg/extractors/table_plain_extractor.py:65-67 | whitespace-only text has no line |
| EsgTablePlainExtractor.BlankTextEmpty | src/esg/extractors/table_plain_extractor.py:65-67 | whitespace-only text parses to `{}` |
| EsgTablePlainExtractor.NarrativeBeforeCurrency | src/esg/extractors/table_plain_extractor.py:90 | a narrative word directly followed by a currency sign still matches between word boundaries, so the line is skipped |
| EsgTablePlainExtractor.TableLikeIff | src/esg/extractors/table_plain_extractor.py:30-44 | a line looks like a table row exactly when it has a "\|", two whitespace characters in a row, or both parentheses |
| EsgTablePlainExtractor.TrailingNumberSpec | src/esg/extractors/table_plain_extractor.py:82-119 | a number is found exactly when the pattern matches somewhere, and it is the rest of the line from the leftmost match |
| EsgTablePlainExtractor.TrailingNumberShape | src/esg/extractors/table_plain_extractor.py:82-119 | the number starts with a minus sign or a digit and holds only digits, commas, dots and whitespace after it |
| EsgTablePlainExtractor.UnitToken | src/esg/extractors/table_plain_extractor.py:18-27 | a unit token holds no space and no superscript three |
| EsgTablePlainExtractor.FirstUnitInSpec | src/esg/extractors/table_plain_extractor.py:107-112 | no unit is found exactly when no unit's token occurs in the spaceless line; a found unit is the first whose token occurs |
| EsgTablePlainExtractor.FindUnitIn | src/esg/extractors/table_plain_extractor.py:107-112 | the unit loop with `break` computes FirstUnitIn |
| EsgTablePlainExtractor.LineEntryIff | src/esg/extractors/table_plain_extractor.py:102-125 | a line yields a record for a KPI exactly when it names a synonym and ends in a number; the record holds that number, the first unit found or None, and confidence 0.85 |
| EsgTablePlainExtractor.FoldSpec | src/esg/extractors/table_plain_extractor.py:86-100 | after n lines a code has a record exactly when it is a schema code and one of those lines yields one, and the record is the first such line's |
| EsgTablePlainExtractor.FoldReports | src/esg/extractors/table_plain_extractor.py:86-100 | the first line that yields a record for a code supplies it, and a later line never replaces it |
| EsgTablePlainExtractor.PlainReports | src/esg/extractors/table_plain_extractor.py:86-132 | a KPI is reported exactly when it is a schema code and some read line names one of its synonyms and ends in a number; the record is the first such line's |
| EsgTablePlainExtractor.PlainLineRead | src/esg/extractors/table_plain_extractor.py:89-95 | the line a record comes from looks like a table row and holds none of the narrative verbs |
| EsgTablePlainExtractor.ScanCodes | src/esg/extractors/table_plain_extractor.py:97-125 | the code loop for one line computes AbsorbFrom over the line's records |
| EsgTablePlainExtractor.ParseTablePlainText | src/esg/extractors/table_plain_extractor.py:51-132 | the line loop computes ParseSpec |
| EsgTablePlainExtractor.PageTexts | src/esg/extractors/table_plain_extractor.py:159 | a page without text contributes the empty string |
| EsgTablePlainExtractor.ExtractKpisTablesPlain | src/esg/extractors/table_plain_extractor.py:139-168 | the extractor computes PlainSpec: `{}` when reading fails or the text is blank, else the parse of the joined page text |
| EsgTablePlainExtractor.PlainPagesParse | src/esg/extractors/table_plain_extractor.py:153-168 | a failed read gives `{}`, and otherwise the result is the parse of the joined, stripped page text |
| EsgTextCleaner.JoinNoBreak | src/esg_system/core/text_cleaner.py:7 | after the hyphen join no hyphen is followed by whitespace, whatever the text |
| EsgTextCleaner.JoinNoSpaceRun | src/esg_system/core/text_cleaner.py:6-7 | the hyphen join creates no whitespace run in collapsed text |
| EsgTextCleaner.CleanNoNul | src/esg_system/core/text_cleaner.py:5 | the cleaned text holds no NUL character |
| EsgTextCleaner.CleanPlainSpaces | src/esg_system/core/text_cleaner.py:6 | the only whitespace left is the ASCII space |
| EsgTextCleaner.CleanNoRuns | src/esg_system/core/text_cleaner.py:6-7 | no two whitespace characters in a row, and no hyphen followed by whitespace |
| EsgTextCleaner.CleanTextSpec | src/esg_system/core/text_cleaner.py:3-8 | all of the above, and the result is stripped |
| EsgTextCleaner.CleanTextIdempotent | src/esg_system/core/text_cleaner.py:3-8 | cleaning cleaned text changes nothing |
| LlmReplies.StripMarkdownFences | src/esg_user/extractors/llm_extractor.py:68-90 | text without a leading fence is only stripped |
| LlmReplies.FencedJsonUnwrapped | src/esg_user/extractors/llm_extractor.py:68-90 | a reply fenced as a "json" block yields the document inside |
| LlmReplies.BareJsonKept | src/esg_user/extractors/llm_extractor.py:72-90 | a bare document is kept as it is |
| EsgLlmExtractor.ParsedReply | src/esg/extractors/llm_extractor.py:56-111 | a missing key, an API error, a malformed response or an empty content yields no document; otherwise the document is the oracle's parse of the cleaned content |
| EsgLlmExtractor.LlmEntry | src/esg/extractors/llm_extractor.py:118-131 | raises exactly when the document or the answer is not an object; a hit has raw_value, raw_unit and confidence, a raw value other than None, and the base confidence |
| EsgLlmExtractor.ExtractKpisLlm | src/esg/extractors/llm_extractor.py:40-133 | the extractor returns `{}` before its loop on every failure, and otherwise its loop over the schema computes BuildOutcome over LlmEntry |
| EsgLlmExtractor.ExtractedCodes | src/esg/extractors/llm_extractor.py:116-133 | only schema codes are output, each with a raw value and the base confidence |
| EsgLlmExtractor.ExtractedExactly | src/esg/extractors/llm_extractor.py:118-131 | with object answers, a code is output exactly when its raw value is not None |
| EsgLlmExtractor.FencedReplyDropped | src/esg/extractors/llm_extractor.py:94-111 | as written a reply fenced as a "json" block never parses, so the extractor returns `{}` |
| EsgLlmExtractor.FencedReplyParsed | src/esg_user/extractors/llm_extractor.py:68-90 | with the fence stripping the same reply yields the document inside |
| EsgLlmExtractor.BareReplyKept | src/esg/extractors/llm_extractor.py:95-101 | a bare document is cleaned to itself either way |
| EsgPipeline.ScoreOf | src/esg/pipeline/pipeline.py:70 | an entry without `_score` scores 0; it raises exactly when `_score` is not a dict or holds a score that is not a number |
| EsgPipeline.CandidatesFrom | src/esg/pipeline/pipeline.py:61-77 | every candidate is a truthy entry of one source, with its score and its source's priority, and every truthy entry of a source is a candidate |
| EsgPipeline.CollectCandidates | src/esg/pipeline/pipeline.py:59-77 | the inner loop computes CandidatesFrom |
| EsgPipeline.PickBest | src/esg/pipeline/pipeline.py:92-97 | the pick is a candidate no other ranks above by (score, priority), and the first such one |
| EsgPipeline.NotReported | src/esg/pipeline/pipeline.py:80-89 | no value, no unit, confidence 0, no source, status "Not Reported" |
| EsgPipeline.Tagged | src/esg/pipeline/pipeline.py:99-102 | the source becomes the one-name list and every other field is kept |
| EsgPipeline.FuseAllSources | src/esg/pipeline/pipeline.py:41-104 | the loop over the KPI codes computes BuildOutcome over FusedEntry |
| EsgPipeline.FuseEveryCode | src/esg/pipeline/pipeline.py:60-102 | every KPI code gets exactly one fused entry, in code order |
| EsgPipeline.NoCandidateNotReported | src/esg/pipeline/pipeline.py:80-89 | a code no source holds a truthy entry for is Not Reported |
| EsgPipeline.WinnerTakesCode | src/esg/pipeline/pipeline.py:92-102 | a code with a candidate takes the entry of a candidate no other ranks above, with its source name as the only source |
| EsgPipeline.FirstPresentSourceWins | src/esg/pipeline/pipeline.py:53-58 | without `_score` the first source in priority order holding a truthy entry wins |
| EsgPipeline.GridWinsUnscored | src/esg/pipeline/pipeline.py:53-58 | a truthy table_grid entry wins when no entry carries a score |
| EsgPipeline.MissingCodes | src/esg/pipeline/pipeline.py:161-164 | the backfill targets exactly the codes whose fused value is None |
| EsgPipeline.BackfillMissing | src/esg/pipeline/pipeline.py:187-200 | the fill loop computes Backfill |
| EsgPipeline.BackfillOutside | src/esg/pipeline/pipeline.py:187-200 | codes outside the loop are untouched |
| EsgPipeline.BackfillKeepsFilled | src/esg/pipeline/pipeline.py:194-196 | a value that is not None is never overwritten |
| EsgPipeline.BackfillNothing | src/esg/pipeline/pipeline.py:180-185 | a failed backfill, which leaves `{}`, changes nothing |
| EsgPipeline.BackfillFills | src/esg/pipeline/pipeline.py:187-200 | a missing code with a truthy answer ends up with that answer, tagged "llm" |
| EsgPipeline.BackfillKeepsKeys | src/esg/pipeline/pipeline.py:187-200 | filling codes already fused keeps the fused key order |
| EsgPipeline.ToKpiResult | src/esg/pipeline/pipeline.py:205-216 | the result carries the code, value and unit; the status defaults to "Not Reported", the source to []; it raises exactly when `float()` rejects the confidence (`FloatOr` raises): numeric strings and booleans are accepted |
| EsgPipeline.ResultsOf | src/esg/pipeline/pipeline.py:204-216 | one result per fused key, in key order |
| EsgPipeline.ConvertResults | src/esg/pipeline/pipeline.py:204-216 | the append loop computes ResultsOf |
| EsgPipeline.RunOnPdf | src/esg/pipeline/pipeline.py:120-218 | the fusion, backfill and conversion compute RunSpec |
| EsgPipeline.RunOneResultPerCode | src/esg/pipeline/pipeline.py:120-218 | every run returns one result per schema KPI, in schema order |

## Left out

- Reading PDFs, loading the configuration, logging and the environment are I/O. The extractors' inputs (page text, table cells) are parameters.
- The chat service and `json.loads` are oracles. Of `json.loads` the model only assumes that it rejects text whose first non-blank character cannot start a JSON document.
- Floating point is modelled by exact reals: rounding, `inf`, `nan` and exponents in `float()` text are not modelled, nor is the printed form of a computed float.
- Lower-casing covers ASCII and Latin-1: other Unicode characters are treated as uncased. Whitespace (`PyStr.IsSpace`) is Python's full `str.isspace()` set.
- PyStr.IsWordChar: `\w` is exact up to U+00FF only. From U+0100 on, every character counts as a word character except whitespace, U+2010-U+206F, U+20A0-U+20CF and U+2190-U+22FF. Other symbols, such as the trademark sign or box drawing, count as word characters, although Python's `re` does not count them, so a `\b` next to one of them is not seen.
- EsgPipeline.ScoreOf: a `_score` holding a non-number score raises here; Python raises only when the sort compares it with another candidate's score.
- EsgPipeline.RunOnPdf: takes the four normalized results instead of calling the extractors, whose inputs are files. The LLM reply is cleaned with the fence stripping of the user-facing extractor. The backfilled LLM answers are normalized with the intended unit key (`EsgLlmNormalizer.LlmRules`), not the as-written one (`LlmRulesAsWritten`); see Findings for both.
- EsgNlpExtractor.ExtractKpisNlp: the `if code in results: continue` guard never fires, since schema codes are distinct, and is not modelled.
- EsgNlpExtractor.Chunks: the `\n+` alternative of the sentence split is not modelled, since the text has no newline left after whitespace is collapsed.
- `esg/core/types.py` (the `KPIResult` class) is not part of this model; `EsgPipeline.KpiResult` holds the six fields `run_on_pdf` passes to it.
- EsgLlmExtractor.ExtractKpisLlm: cleans the reply with `LlmReplies.StripMarkdownFences`, the corrected half of the second Findings row. The as-written cleaning of src/esg/extractors/llm_extractor.py:95-101 is `EsgLlmExtractor.CleanedContent`. `ExtractSpec` takes the cleaning as a parameter, and `FencedReplyDropped` states what the as-written cleaning does to a fenced reply.
- PyFloat.Float: does not accept the digit-group underscores ("1_000") that Python's `float()` accepts.
- PyStr.IsDigit: covers the ASCII digits only. Python's `\d` and `float()` also accept the other Unicode decimal digits, which are not modelled.
- EsgTableGridExtractor.NormText: the NFD decomposition and the removal of combining marks cover Latin-1 letters and the combining block U+0300-U+036F only.
- EsgTableGridExtractor.ExtractKpisTablesGrid: the tables the PDF reader extracts are a parameter. None stands for a reader failure.
- EsgTablePlainExtractor.ExtractKpisTablesPlain: the page texts the PDF reader extracts are a parameter. None stands for a path that is not a file or a reader failure. The log line written for each hit is not modelled.
- `esg_user` generation, src/esg_user/pipeline/fusion.py (`_pick_best`, `fuse_all`): not modelled. This generation is superseded by the `esg` pipeline. Its fusion rule keeps the candidate with the highest positive confidence.
- src/esg_user/extractors/table_engine.py (`_coerce_extractor_result`, `_pick_best_table_candidate`, the merge loop): not modelled, superseded by the `esg` table extractors.
- src/esg_user/pipeline/normalize_kpis.py (`_canonical_unit`, `_conversion_multiplier`, `normalize_kpis`): not modelled, superseded by the `esg` normalizers.
- src/esg_user/types.py (`ExtractorResultDict`, `make_result`) and src/esg_user/pipeline/assemble_output.py (`assemble_output`): not modelled. They are the record type and output step of the superseded generation.
- src/esg_user/extractors/regex_extractor.py, nlp_extractor.py, table_extractor.py, table_extractor_camelot.py and table_extractor_fitz.py: not modelled. The `esg` regex, sentence and table extractors replace them.
- src/esg_user/extractors/llm_extractor.py: only `_strip_markdown_fences` is modelled (`LlmReplies.StripMarkdownFences`). `_normalize_llm_dict` and the retry loop around the chat service are not modelled.
- `esg_v2` generation: not modelled. This covers src/esg_v2/pipeline/pipeline.py (`_fuse_regex_v1`, `_convert_to_kpi_results`), src/esg_v2/utils/numeric_parser.py (`parse_number`), the four normalizers under src/esg_v2/normalization/, and the five extractors under src/esg_v2/extractors/. It is the intermediate generation between `esg_user` and `esg`.

## Findings

| source | as written | input that shows it | evidently intended | confidence | as-written member | corrected member |
|---|---|---|---|---|---|---|
| src/esg/normalization/llm_normalizer.py:9-10 | the unit key lower-cases before replacing "Â³", so the replacement never fires | raw unit "m³" with allowed units m3 and ML matches nothing | "m³" compares equal to "m3", as in the other normalizers | high, not executed | EsgLlmNormalizer.SuperscriptUnitMissed | EsgLlmNormalizer.NormalizeLlmResult |
| src/esg/extractors/llm_extractor.py:95-101 | the backticks are stripped before the fence opener with its "json" tag is removed, so the tag stays in front | a reply fenced as a json-tagged code block is cleaned to text that starts with "json" and is rejected, giving an empty result | the fence and its tag are removed and the document parses | high, not executed | EsgLlmExtractor.FencedReplyDropped | EsgLlmExtractor.FencedReplyParsed |
