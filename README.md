# Probe data importer — a Dafny model

This project models the core of the probe-data importer, which turns geochemical
spreadsheets of kimberlite pipes and rock samples into RDF graphs. It covers three parts.

- **The spreadsheet reader** (`i_pol.py`). An importer object reads a workbook row by row.
  - Marker rows (`#HEADER`, `#DATA`, …) switch its mode.
  - Header and class rows name the columns.
  - `LOCATION` rows manage a stack of nested sites above a fence that the constructor fixes.
  - Data and detection-limit rows become samples and measurements. `proc_comp` reads each
    column name as a chemical formula, finds the element or compound it measures, and keeps
    two caches: the detection-limit nodes per analyte and the compound nodes.
  - The `Alrosa` importer is a variant with one header row, descriptive columns
    (location, tectonic setting, rock names, texture, …) and a references part.
- **The workbook importer** (`alrosa_importer.py`).
  - Cells are cleaned.
  - Tables are found by searching a column for a title, then read as one-row features,
    as a multi-row table or as a transposed table.
  - Column labels are normalized into unique names.
  - The global key registry records which pipe has which column.
- **The feature converter** (`alrosa_convert_features.py`).
  - Feature keys are normalized.
  - Numbers are read from their text spellings.
  - Mineral type keys such as `1,% gar` are parsed.
  - A pipe's feature dictionary becomes triples: geology, olivine fractions, target
    parameters, the diamond association with its classification nodes, one composition
    node per mineral with its type values and counts, and the geochemistry nodes.
  - A table-driven lookup takes, for each mapping key, the first data key that contains it.

How the model is written:
- **Pure code** (name normalization, formula scanning, cleaning, key parsing) is written as
  functions, with lemmas about them.
- **The importer object** is a class, `PolState.ImpState`. Its fields are the importer's own
  fields. Its methods are proved against specification functions (`PolEffects`, `PolRows`)
  that say what each step adds to the graph and how it leaves the caches and the reader's
  fields.
- **Loops** in the source (`normURI`, the de-duplication loop of `normalize_columns`, the
  registry update, the mapping loops of the converter, the row and sheet loops) are methods
  with loop invariants.
- **The graph** is a `Store` class holding a set of triples and a blank-node counter.
  `BNode()` draws the next blank.
- **Python's `None`** is `Option`.
- **Numbers** are finite decimals.
- **`quit()` and uncaught exceptions** become an `Abort` status or a `None` result.

Modules, one per file:
- `Text`, `Values`, `Options`, `Dicts`, `Rdf`: support.
- `PolNames`, `PolFormula`, `PolRules`, `PolEffects`, `PolRows`, `PolState`: `i_pol.py`.
- `ImporterCells`, `ImporterBlocks`, `ImporterColumns`, `KeyMaster`, `CanonicForm`:
  `alrosa_importer.py`.
- `FeatureKeys`, `CanonKeys`, `FeatureLookups`, `FeatureMinerals`, `FeatureRdf`:
  `alrosa_convert_features.py`.

## Model

| member | source | states |
|---|---|---|
| PolNames.NormUri | i_pol.py:256-275 | The character loop of `normURI` computes the squeezed name: letters and digits kept, each other run one `_`, none at either end |
| PolNames.NormUriShape | i_pol.py:256-275 | A `normURI` result holds only letters, digits and single inner underscores, never `__`, never `_` at an end |
| PolNames.NormUriKeepsAlnum | i_pol.py:256-275 | The letters and digits of the input survive in order, and no other character does |
| PolNames.NormUriIdempotent | i_pol.py:256-275 | Applying `normURI` twice equals applying it once |
| PolNames.NormUriFixes | i_pol.py:256-275 | A name that is already URI-safe passes through unchanged |
| PolNames.Elem | i_pol.py:278-292 | `elem`: the periodic-table entry under the symbol with its first letter upper-cased and the rest lower-cased, or none |
| PolNames.ElemFolded | i_pol.py:278-292 | Folding a symbol (first letter upper, rest lower) is idempotent, so `elem` answers the same for a name and its folded form |
| PolNames.ElemIgnoresCase | i_pol.py:278-292 | Names differing only in letter case find the same element |
| PolNames.Capitalize | i_pol.py:208-211 | `capitalize`: the words lower-cased, joined by single spaces, the first character upper-cased |
| PolNames.CapitalizeIdempotent | i_pol.py:208-211 | `capitalize` gives the input's words lower-cased and single-spaced (no other whitespace, none at the ends), with only the first character upper-cased; a second pass changes nothing |
| PolNames.SnakeToCamel | i_pol.py:183-206 | `snake_to_camel`: the `_`-separated parts joined, each after the first (or every one) capitalized; the empty name is returned as is |
| PolNames.SnakeToCamelNoUnderscore | i_pol.py:183-206 | The camel-case name has no underscore |
| PolNames.SnakeToCamelLetters | i_pol.py:183-206 | Converting only drops the underscores and changes letter case: lower-casing the result gives the input's non-underscore characters, lower-cased, in order |
| PolNames.TextureIn | i_pol.py:377-403 | `get_texture_iri`: none for an empty description; otherwise the class of an exact spelling of the upper-cased, single-spaced text, else of the first spelling it contains, else `ComplexTexture` |
| PolNames.FindExact | i_pol.py:394-396 | The index found is of an entry spelled exactly as the text, and no earlier entry is |
| PolNames.FindContained | i_pol.py:398-401 | The index found is the first entry whose spelling occurs in the text |
| PolNames.TextureTotal | i_pol.py:377-403 | Every non-empty description gets a texture class; the empty one gets none |
| PolNames.TextureExact | i_pol.py:388-396 | An exact spelling of the upper-cased, single-spaced text wins over any contained one |
| PolNames.TextureContained | i_pol.py:398-401 | Without an exact spelling, the first entry in table order whose spelling occurs in the text is taken |
| PolNames.TextureDefault | i_pol.py:403 | A description that matches no entry is a `ComplexTexture` |
| PolNames.TextureNormalizes | i_pol.py:390-391 | Descriptions that differ only in spacing and letter case get the same texture |
| PolNames.RefField | i_pol.py:831-842 | `reffield`: a leading `[n]` names reference `ref-n`, and the rest of the value is its citation, if any |
| PolNames.RefFieldReference | i_pol.py:831-842 | The citation is missing exactly when the value has fewer than two words |
| PolNames.RefFieldNumbered | i_pol.py:831-842 | `reffield("[n] text")` names reference `ref-n` and keeps `text` as its citation |
| PolNames.SheetsToParse | i_pol.py:1046-1060 | The sheets parsed are exactly those the sheet filter admits by name or position, in workbook order |
| PolFormula.Run | i_pol.py:87-88 | A greedy bounded run: at most `limit` characters, all satisfying the class, and stops at the limit or a non-matching character |
| PolFormula.LettersEnd | i_pol.py:87-90 | The letters of a token are an upper-case Latin letter and at most two more letters |
| PolFormula.TokenEnd | i_pol.py:87-88 | A token is its letters followed by at most two digits |
| PolFormula.FormulaEnd | i_pol.py:87 | COMPRE's repeated group stops where no further token starts |
| PolFormula.Recognise | i_pol.py:564-584 | A column name is chemical only when COMPRE matches; the formula and rest are the groups it captures |
| PolFormula.TokensConcat | i_pol.py:87-88 | The tokens put back together are exactly COMPRE's group 1 |
| PolFormula.FindAllFormula | i_pol.py:577-584 | `COMPELRE.findall` on the formula finds exactly the tokens of COMPRE's repeated group |
| PolFormula.ElreOnFirstToken | i_pol.py:577-584 | ELRE's group 1 on the first token is that token's letters |
| PolFormula.RecogniseSplits | i_pol.py:577-584 | A chemical name splits into the formula and the rest, and the formula cannot be extended |
| PolFormula.RecogniseElement | i_pol.py:586-657 | A column names an element exactly when its formula is a single digit-free token in the table; any other formula led by an element is a compound, so the "unknown combination" `quit()` is unreachable |
| PolFormula.IronPercent | i_pol.py:564-584 | `Fe_%` is the element Fe with rest `_%` |
| PolFormula.SodiumOxideScan | i_pol.py:87-90 | `Na2O` scans as tokens `Na2`, `O`, led by the letters `Na` |
| PolFormula.SodiumOxide | i_pol.py:577-649 | `Na2O` is the compound `Na2O` |
| PolFormula.Silica | i_pol.py:577-595 | `SiO2` is one token whose letters `SiO` name no element, so the column is not chemical |
| PolFormula.CyrillicName | i_pol.py:564-576 | A Cyrillic column name is not a formula |
| PolRules.StateNamed | i_pol.py:406-414 | `State[name]` finds a state exactly for its member name and gives that state |
| PolRules.Marker | i_pol.py:702-705 | A text first cell starting with `#` after trimming is a marker, read without its leading `#`s |
| PolRules.MarkerState | i_pol.py:702-711 | A marker names a state exactly when it is a member name, with any number of `#`s |
| PolRules.ClassInherits | i_pol.py:800-809 | An empty class cell takes the class of the nearest non-empty cell to its left |
| PolRules.ClassNone | i_pol.py:800-809 | A column has no class exactly when it and every cell to its left are empty |
| PolRules.Suffix | i_pol.py:753-760 | The suffix is `_%` for a percent class unless the field mentions PPM, `_PPM` for a PPM class unless it mentions `%`, otherwise nothing |
| PolRules.MilligramsPerKilogram | i_pol.py:753-760 | A column classed in `мг/кг` gets `_PPM` unless its field speaks of percent |
| PolRules.SampleName | i_pol.py:764-775 | A text sample name loses its spaces; a whole number is written without a fraction |
| PolRules.AlrosaSampleNameSafe | i_pol.py:897-915 | An Alrosa sample name holds no `/` or `?` and never starts with a blank |
| PolRules.UnitOf | i_pol.py:541-549 | The unit is PPM, intensity, percent or unknown, in that order of precedence |
| PolRules.IgnitionLossUnit | i_pol.py:553-562 | Loss on ignition is in percent when the field name says so, otherwise in an unknown unit |
| PolRules.ProcValue | i_pol.py:481-488 | `proc_value`: text comes back trimmed, a whole float as the integer of the same value, anything else unchanged; only an absent value gives `None` |
| PolRules.Prepare | i_pol.py:504-552 | `N.A.` values are skipped; `<x` gives the limit `x`; a whole number is measured as an integer |
| PolRules.PrepareWhole | i_pol.py:551-552 | A whole number is measured as an integer, while a plain column keeps it as read |
| PolRules.PrepareBelow | i_pol.py:511-513 | `<` anywhere in a text marks a detection limit: the text without leading `<`s and blanks |
| PolRules.Places | i_pol.py:926-935 | The `/`-separated parts of a `LOCATION` give one place each, with a `normURI` identifier and a trimmed label |
| PolRules.PlacesShape | i_pol.py:926-935 | No place label holds `/`, and every identifier is a `normURI` name |
| PolRules.RockNames | i_pol.py:959-960 | `ROCK_NAME` gives its comma-separated parts, trimmed and lower-cased, one per part |
| PolRules.RockRelation | i_pol.py:961-976 | A rock part is a structure (`xenolith`), a unit (`megacryst`), one of the listed minerals, or a rock type |
| PolRules.RockNamesShape | i_pol.py:959-960 | No rock-name part holds a comma |
| PolRules.FoldedIriIgnoresCase | i_pol.py:936-952 | Tectonic settings and minerals that differ only in end blanks and case name the same node |
| PolEffects.HeaderRow | i_pol.py:723-726 | A header row sets one entry per non-empty cell, as `h` computes it |
| PolEffects.ClassRow | i_pol.py:800-809 | A class row sets a class for every column from the first non-empty cell on, each empty cell repeating the class to its left |
| PolEffects.LocationRowLocs | i_pol.py:734-740 | The location stack after a `LOCATION` row: for each text cell, one location above the fence is popped and the new site pushed |
| PolEffects.MeasureEffect | i_pol.py:597-659 | A measurement: a new node tied to the sample, or to the dataset on a detection-limit row; its value and unit or its limit; what it measures; whether it is a total. Without a sample outside a limit row the run ends |
| PolEffects.CompEffect | i_pol.py:494-659 | `proc_comp`: `N.A.` is skipped; loss on ignition, plain columns, field-mapped columns, elements and compounds each add their own triples |
| PolEffects.CellEffect | i_pol.py:742-788 | `ImpState.c`: an empty or unknown column does nothing; the sample column sets the sample; other columns go to `proc_comp` with their class suffix when there is a sample or a limit row, and otherwise end the run |
| PolEffects.AlrosaCellEffect | i_pol.py:873-991 | `Alrosa.c`: the sample column, the descriptive columns, then measurements; a present value with nowhere to store it ends the run outside the references sheet |
| PolEffects.AlrosaNowhereToStore | i_pol.py:982-991 | A present value in a measurement column with no sample, outside a limit row and the references sheet, ends the run, because `proc_value` never gives `None` for it |
| PolEffects.HeaderEntry | i_pol.py:790-798 | A header cell names its column by `normURI` of its text, or as the sample column when that name is a sample name |
| PolEffects.SampleColumnIn | i_pol.py:795-797 | After a header row the sample column is the last sample-named cell's column, or the previous one |
| PolEffects.MeasureHead | i_pol.py:597-614 | A measurement belongs to the sample, or on a detection-limit row is a limit of the dataset |
| PolEffects.MeasureValue | i_pol.py:616-620 | A value with no detection limit is written with its unit |
| PolEffects.MeasureLink | i_pol.py:638-653 | A measurement is linked to its element, or to the compound node, which is described only on first use |
| PolEffects.TotalTriples | i_pol.py:658-659 | A column whose rest says `TOT` or `ОБЩ` marks the measurement a total |
| PolEffects.LimitEffect | i_pol.py:622-636 | `finish_dl`: a `<x` value links to the cached limit, or a new limit node with value `x` is made and cached |
| PolEffects.MeasureOwnFresh | i_pol.py:597-659 | A measurement's own triples mention only blanks it drew and cached nodes |
| PolEffects.MeasureLimitKeeps | i_pol.py:622-636 | The limit part draws only new blanks, and no analyte loses its entry in the limit cache (on a limit row its entry may be replaced by the new node) |
| PolEffects.MeasureKeeps | i_pol.py:597-659 | A measurement draws only new blanks, describes only those, and never drops a cache entry |
| PolEffects.CompKeeps | i_pol.py:494-659 | `proc_comp` draws only new blanks, describes only those, mentions only drawn ones, and keeps both caches |
| PolEffects.PlainKeeps | i_pol.py:564-576 | A plain column adds no blank node and keeps the caches |
| PolEffects.MappedKeeps | i_pol.py:586-595 | A field-mapped column adds no blank node and keeps the caches |
| PolEffects.IgnitionKeeps | i_pol.py:553-562 | Loss on ignition draws exactly one blank and keeps the caches |
| PolEffects.NotAvailableSkipped | i_pol.py:507-508 | A value reading `N.A.` leaves graph and caches unchanged |
| PolEffects.ElementMeasured | i_pol.py:609-653 | An element column on a sample row adds a new measurement of the sample, with its value, unit and element |
| PolEffects.LimitShared | i_pol.py:622-631 | A `<x` whose analyte already has a limit node links to it and draws no second node |
| PolEffects.LimitCreated | i_pol.py:631-636 | The first `<x` for an analyte on a sample row makes a limit node valued `x` and caches it |
| PolEffects.LimitRowSelfLoop | i_pol.py:622-631 | On a detection-limit row a `<x` value makes the limit node its own value, and `x` is not recorded |
| PolEffects.MeasureOwnNoValue | i_pol.py:616-620 | A measurement with a detection limit has no literal value of its own |
| PolEffects.CompoundReused | i_pol.py:638-647 | A compound already seen keeps its node and the cache is unchanged |
| PolEffects.CompoundDescribed | i_pol.py:638-647 | A new compound is typed, given its formula and label, and cached |
| PolEffects.LocationFence | i_pol.py:734-740 | A `LOCATION` row never pops the stack below the fence |
| PolEffects.LocationRowNests | i_pol.py:734-740 | Each text cell of a `LOCATION` row adds a site inside the innermost location left after the pop |
| PolEffects.StripStrips | i_pol.py:739 | `strip` is idempotent, so `proc_loc` re-stripping changes nothing |
| PolEffects.DescriptiveNeedsSample | i_pol.py:922-981 | Descriptive Alrosa columns say something of the sample only when there is one |
| PolEffects.AlwaysPrimary | i_pol.py:953-958 | `PRIMARY_SECONDARY` marks every sample primary, whatever the cell says |
| PolRows.GenericRow | i_pol.py:695-740 | `ImpState.row`: a marker row switches the mode or ends the run; other rows are read as header, class, data, limit or location rows, or ignored |
| PolRows.AlrosaRow | i_pol.py:844-871 | `Alrosa.row`: the header row, then data rows until `#REFERENCES`, then reference rows |
| PolRows.RowEffect | i_pol.py:695-871 | A row is read by the importer's own `row`: the generic or the Alrosa one |
| PolRows.SheetEffect | i_pol.py:1020-1029 | `parse_sheet`: the initial locations, the sheet's own triples, then every row in order until one ends the run |
| PolRows.XlEffect | i_pol.py:1032-1060 | `parse_xl`: the sheets the filter admits, in workbook order, until one ends the run |
| PolRows.CellsStay | i_pol.py:742-788 | Once a cell aborts the run, later cells add nothing |
| PolRows.RowsStay | i_pol.py:1028-1029 | Once a row aborts the sheet, later rows add nothing |
| PolRows.XlStay | i_pol.py:1044-1060 | Once a sheet aborts the run, later sheets add nothing |
| PolRows.AlrosaFirstSheetOnly | i_pol.py:1054-1058 | Only the first sheet of an Alrosa workbook is read, whatever follows it |
| PolRows.MarkerSwitches | i_pol.py:702-713 | A marker row naming a state switches to it and extracts nothing |
| PolRows.MarkerUnknown | i_pol.py:706-710 | A marker naming no state ends the run |
| PolRows.IgnoredRow | i_pol.py:712-713 | In `IGNORE` mode a non-marker row extracts nothing |
| PolRows.RowKeepsFence | i_pol.py:734-740 | A row keeps the fenced part of the location stack |
| PolRows.RowsKeepFence | i_pol.py:1028-1029 | A whole sheet keeps the initial locations at the bottom of the stack |
| PolRows.HeaderColumns | i_pol.py:723-726 | After a header row each non-empty cell's column maps to its field and text; other columns keep theirs |
| PolRows.AlrosaHeaderOnce | i_pol.py:848-853 | An Alrosa reader turns to data after its one header row |
| PolRows.ReferenceRow | i_pol.py:867-871 | A reference row `[n] text` describes article `ref-n` with citation `text` |
| PolRows.ReferenceArticle | i_pol.py:867-871 | A reference row's triples are exactly the article's type and label |
| PolRows.ReferenceMissing | i_pol.py:868-869 | A reference row with a number but no citation fails the assertion and ends the run |
| PolState.CompoundCache.constructor | i_pol.py:108 | The compound cache starts empty |
| PolState.ImpState.constructor | i_pol.py:465-479 | The start state, no columns or sample, and the initial locations pushed with the fence at their count |
| PolState.ImpState.ProcLocs | i_pol.py:661-665 | Each initial location is processed in turn on the empty stack |
| PolState.ImpState.Add | i_pol.py:490-492 | The triple is added to the graph |
| PolState.ImpState.AddAll | i_pol.py:490-492 | Several triples are added |
| PolState.ImpState.Belongs | i_pol.py:679-687 | The object lies in the innermost location, if there is one |
| PolState.ImpState.ProcLoc | i_pol.py:667-677 | A labelled site inside the innermost location is pushed onto the stack |
| PolState.ImpState.MakeDetlim | i_pol.py:597-601 | A new limit node of the dataset |
| PolState.ImpState.Link | i_pol.py:638-653 | The measurement is linked to its element or compound node; the compound cache is updated as `MeasureLink` says |
| PolState.ImpState.FinishDl | i_pol.py:622-636 | The store and caches end as `LimitEffect` says |
| PolState.ImpState.NoteLimit | i_pol.py:623-624 | On a limit row the measurement is cached for its key |
| PolState.ImpState.Resolve | i_pol.py:625-636 | A `<x` value points at the cached limit, made on first use |
| PolState.ImpState.Head | i_pol.py:609-614 | The measurement node is tied to the sample or made a dataset limit |
| PolState.ImpState.ValueOf | i_pol.py:618-620 | Value and unit of a measurement without a limit |
| PolState.ImpState.Total | i_pol.py:658-659 | A total is marked |
| PolState.ImpState.Measure | i_pol.py:597-659 | The measurement branch adds exactly `MeasureEffect` |
| PolState.ImpState.Ignition | i_pol.py:553-562 | Loss on ignition adds exactly `IgnitionEffect` |
| PolState.ImpState.Plain | i_pol.py:564-576 | A non-chemical column adds exactly `PlainEffect` |
| PolState.ImpState.Mapped | i_pol.py:586-595 | A column led by a non-element adds exactly `MappedEffect` |
| PolState.ImpState.ProcComp | i_pol.py:494-659 | `proc_comp` adds exactly `CompEffect` and leaves the context it describes |
| PolState.ImpState.Formula | i_pol.py:564-659 | A chemical or plain column after preparation adds exactly `FormulaEffect` |
| PolState.ImpState.SetSample | i_pol.py:776-780 | A sample cell sets the sample and records it, labelled, in the innermost location |
| PolState.ImpState.GenericCell | i_pol.py:742-788 | `ImpState.c` adds exactly `CellEffect` |
| PolState.ImpState.AddPlaces | i_pol.py:930-935 | Every place of a `LOCATION` value is added |
| PolState.ImpState.AddRocks | i_pol.py:961-976 | Every rock-name part is added with its relation |
| PolState.ImpState.Descriptive | i_pol.py:922-981 | A descriptive Alrosa column adds exactly `DescriptiveEffect` |
| PolState.ImpState.Texture | i_pol.py:977-981 | `ROCK_TEXTURE` adds the texture class of a non-empty description |
| PolState.ImpState.Describe | i_pol.py:922-976 | Descriptive columns other than the texture add `DescriptiveTriples` |
| PolState.ImpState.AlrosaCell | i_pol.py:873-991 | `Alrosa.c` adds exactly `AlrosaCellEffect` |
| PolState.ImpState.Cell | i_pol.py:742-991 | The importer's own cell reader |
| PolState.ImpState.Cells | i_pol.py:715-721 | The cells of a row, in order and one column aside, until one aborts |
| PolState.ImpState.DataRow | i_pol.py:715-721 | A data or limit row: the sample cell first, then every cell |
| PolState.ImpState.AlrosaDataRow | i_pol.py:860-866 | An Alrosa data row: the sample cell first if named, then the others |
| PolState.ImpState.H | i_pol.py:790-798 | A header cell sets its column's field and the sample column |
| PolState.ImpState.HeaderCells | i_pol.py:723-726 | A header row leaves exactly `HeaderRead` |
| PolState.ImpState.Hc | i_pol.py:800-809 | A class cell sets its column's class, or repeats the previous one |
| PolState.ImpState.ClassCells | i_pol.py:728-732 | A class row sets `ClassRow` and leaves the last class as previous |
| PolState.ImpState.LocationCells | i_pol.py:734-740 | A `LOCATION` row leaves the stack and triples `LocationRowLocs`/`LocationRowTriples` give |
| PolState.ImpState.LocationCell | i_pol.py:736-740 | One text cell pops above the fence and pushes its site |
| PolState.ImpState.GenericRowStep | i_pol.py:695-740 | `ImpState.row` is `GenericRow` |
| PolState.ImpState.ModeRowStep | i_pol.py:715-740 | A non-marker row is read as the mode says |
| PolState.ImpState.AlrosaRowStep | i_pol.py:844-871 | `Alrosa.row` is `AlrosaRow` |
| PolState.ImpState.Reference | i_pol.py:867-871 | A reference row adds exactly `ReferencesEffect` |
| PolState.ImpState.Row | i_pol.py:695-871 | The importer's `row`: graph, caches and reader fields end as `RowEffect` says, and the initial locations stay at the bottom of the stack |
| PolState.ImpState.Rows | i_pol.py:1028-1029 | The rows of a sheet in order, ending at the first abort: graph, caches and reader fields end as `RowsEffect` says, and the initial locations stay at the bottom of the stack |
| PolState.ParseSheet | i_pol.py:1020-1029 | `parse_sheet` adds exactly `SheetEffect`: the initial locations, the sheet's type and label, then the rows |
| PolState.XlStep | i_pol.py:1044-1060 | One sheet: parsed if the filter admits it |
| PolState.ParseXl | i_pol.py:1032-1060 | `parse_xl` adds exactly `XlEffect`: the admitted sheets in order, under `normURI(file + "_" + sheet)` |
| ImporterCells.CleanValue | alrosa_importer.py:91-126 | Empty cells and numbers stay; text no-data markers and blanks become empty; otherwise the result is stripped text, digits or a number |
| ImporterCells.CleanText | alrosa_importer.py:106-123 | The text part of `clean`: stripped, the no-data marker and blanks dropped, commas made points, digits read as an integer and a parseable number as a number |
| ImporterCells.CleanedText | alrosa_importer.py:106-123 | Text survives cleaning only non-empty, without blanks at the ends, commas, or a digit spelling |
| ImporterCells.CleanedStable | alrosa_importer.py:91-126 | Cleaning twice is cleaning once, except text that became `н.д.` by the comma replacement |
| ImporterCells.CleaningMakesNoData | alrosa_importer.py:110-123 | `н,д,` cleans to `н.д.`, which a second cleaning turns into nothing |
| ImporterCells.NoDataCleared | alrosa_importer.py:107-111 | The no-data marker, in any case or padding, cleans to nothing |
| ImporterCells.CleanIntText | alrosa_importer.py:116-120 | The text of an integer is cleaned back into that integer |
| ImporterCells.CleanIgnoresBlanks | alrosa_importer.py:107 | Blanks around text make no difference |
| ImporterCells.MatchesExactly | alrosa_importer.py:79-88 | The matches are exactly the hitting rows, in increasing row order, each with its cell's value |
| ImporterCells.SearchSubstring | alrosa_importer.py:79-88 | The search loop returns exactly the matches |
| ImporterCells.Pairs | alrosa_importer.py:139-140 | No pairs when either row is missing or empty; otherwise pairs up to the shorter row |
| ImporterCells.Appended | alrosa_importer.py:129-150 | What `append_features` leaves: every kept pair stored under its name, in order |
| ImporterCells.AppendedLastWins | alrosa_importer.py:139-150 | The last stored pair with a key decides its value |
| ImporterCells.AppendedElsewhere | alrosa_importer.py:139-150 | A key no pair stores keeps its old value or stays absent |
| ImporterCells.AppendedUnique | alrosa_importer.py:150 | The dictionary never lists a key twice |
| ImporterCells.AppendFeatures | alrosa_importer.py:129-150 | `append_features` leaves the dictionary `Appended` describes |
| ImporterCells.OneRowFeatures | alrosa_importer.py:153-179 | The features under the first hit: names in the next row and values in the one after, or the hit row and the next for the special layout; none without a hit |
| ImporterCells.OneRowFeaturesAtFirstHit | alrosa_importer.py:153-179 | Features are read around the topmost hit: names in the next row and values after, or the hit row and the next for the special layout |
| ImporterCells.OneRowFeaturesNoHit | alrosa_importer.py:159-162 | No hit gives no features |
| ImporterCells.ImportOneRowFeatures | alrosa_importer.py:153-179 | The method returns `OneRowFeatures` |
| ImporterBlocks.BlockLength | alrosa_importer.py:193-197 | The rows counted are all non-empty, and the one after them is empty or past the end |
| ImporterBlocks.BlockRectangular | alrosa_importer.py:193-203 | A non-empty block has rows of equal, non-zero length |
| ImporterBlocks.ReadBlock | alrosa_importer.py:193-197 | The rows from the start up to the first all-empty one |
| ImporterBlocks.Column | alrosa_importer.py:203 | A column holds the `j`-th cell of every row |
| ImporterBlocks.TableFrame | alrosa_importer.py:203 | The first row labels the columns, and the rows below fill them |
| ImporterBlocks.HitBlock | alrosa_importer.py:184-200 | The block after the topmost hit, or nothing when no row hits or the block is empty |
| ImporterBlocks.ReadHitBlock | alrosa_importer.py:184-200 | The search and row loop return `HitBlock` |
| ImporterBlocks.ImportMultirowFrame | alrosa_importer.py:182-204 | The multirow import returns `MultirowFrame` |
| ImporterBlocks.MultirowFrame | alrosa_importer.py:182-204 | The table under the first hit, labelled by its first row |
| ImporterBlocks.MultirowFrameAtFirstHit | alrosa_importer.py:182-204 | The table's labels are the row after the topmost hit, and its columns the cells below, down to the first all-empty row |
| ImporterBlocks.HitBlockAt | alrosa_importer.py:188-197 | The block read is the one right after the topmost hit |
| ImporterBlocks.RowHeader | alrosa_importer.py:237-242 | A row is named by its first cell's stripped text, or `val_{i+1}` when that is falsy or blank |
| ImporterBlocks.CleanRow | alrosa_importer.py:249-250 | The rest of the row, each cell cleaned |
| ImporterBlocks.RowHeaders | alrosa_importer.py:235-242 | The header loop names each row as `RowHeader` does |
| ImporterBlocks.AssignColumns | alrosa_importer.py:244-251 | The column loop assigns each row's cleaned cells under its name |
| ImporterBlocks.ImportTransposedFrame | alrosa_importer.py:207-256 | The transposed import returns `TransposedFrame` |
| ImporterBlocks.TransposedFrame | alrosa_importer.py:207-256 | The transposed table under the first hit: one column per row name, or none when nothing is in it |
| ImporterBlocks.TransposedLastWins | alrosa_importer.py:248-251 | Each column holds the cleaned cells of the last row of its name |
| ImporterBlocks.TransposedNames | alrosa_importer.py:248-251 | The columns are named after the rows, each name once |
| ImporterBlocks.TransposedEmpty | alrosa_importer.py:253-256 | With rows, the table is missing exactly when the rows hold nothing but their names |
| ImporterBlocks.DropEmptyColumnsKeeps | alrosa_importer.py:262-264 | A column is kept exactly when it holds a value, and pruning twice is pruning once |
| ImporterBlocks.AddIfPresent | alrosa_importer.py:267-274 | Anything but `None` is stored under the name, even when empty; `None` changes nothing |
| ImporterBlocks.AddFrameIfPresent | alrosa_importer.py:269-274 | A table is stored with its empty columns dropped |
| ImporterColumns.SubbedSqueezes | alrosa_importer.py:462-466 | The three substitutions squeeze runs of non-alphanumerics into one `_` |
| ImporterColumns.ColumnTextSqueezes | alrosa_importer.py:445-469 | A label's text is squeezed: each run of characters other than letters and digits becomes one `_`, none at the ends |
| ImporterColumns.ColumnTextShape | alrosa_importer.py:445-469 | The text is letters, digits and single inner `_`, without `ε` |
| ImporterColumns.ColumnTextFixes | alrosa_importer.py:445-469 | Text already shaped like a name is its own name |
| ImporterColumns.ColumnTextIdempotent | alrosa_importer.py:445-469 | The string part is idempotent on its own output |
| ImporterColumns.BaseName | alrosa_importer.py:471-474 | The label's text, or `val_{i}` when nothing is left |
| ImporterColumns.CandidateInjective | alrosa_importer.py:477-481 | The suffixed candidates are pairwise different |
| ImporterColumns.FreeFromLeast | alrosa_importer.py:477-481 | The name chosen is the first candidate not yet taken |
| ImporterColumns.NormalizedNames | alrosa_importer.py:434-488 | One name per column |
| ImporterColumns.NormalizedNamesPrefix | alrosa_importer.py:436-486 | A name depends only on the labels up to its column |
| ImporterColumns.NextNameLeast | alrosa_importer.py:436-486 | A missing label is named `val_{i}`; any other gets its base with the least suffix not among earlier names |
| ImporterColumns.NormalizedNameAt | alrosa_importer.py:436-486 | Each column's name, as `NextNameLeast` describes it, after the names before it |
| ImporterColumns.NormalizedNamesFresh | alrosa_importer.py:476-486 | A labelled column's name differs from every earlier name |
| ImporterColumns.NormalizedNamesDistinct | alrosa_importer.py:476-486 | With every label present, all names differ |
| ImporterColumns.NextNameShaped | alrosa_importer.py:438-486 | The next name is non-empty and shaped like a name |
| ImporterColumns.NormalizedNameShaped | alrosa_importer.py:436-486 | Every name is non-empty: letters, digits and single inner `_`, with no `/`, `#`, `ε` or whitespace |
| ImporterColumns.MissingLabelRepeatsName | alrosa_importer.py:438-442 | A missing label skips the duplicate check: after `val_1`, an unlabelled column at position 1 is `val_1` too |
| ImporterColumns.FreeName | alrosa_importer.py:477-481 | The de-duplication loop returns the first free candidate |
| ImporterColumns.NormalizeColumns | alrosa_importer.py:423-489 | The loop computes `NormalizedNames` |
| KeyMaster.Updated | alrosa_importer.py:396-413 | An update either fails or touches only its own section |
| KeyMaster.AddOwnerClosedForm | alrosa_importer.py:408-411 | Every listed name gains the pipe among its owners; others keep theirs; nothing is removed |
| KeyMaster.UpdatedKeys | alrosa_importer.py:401-413 | A plain update leaves exactly the old names and the listed ones |
| KeyMaster.UpdatedOwners | alrosa_importer.py:399-411 | An update with pipe names adds the pipe to exactly the listed names: a new name has just that pipe, and unlisted names keep their owners |
| KeyMaster.AddOwners | alrosa_importer.py:409-411 | The loop computes `AddOwner` |
| KeyMaster.KeyMaster.constructor | alrosa_importer.py:396-413 | The registry starts empty |
| KeyMaster.KeyMaster.Update | alrosa_importer.py:396-413 | The registry becomes `Updated`, or stays as it was where the source raises |
| CanonicForm.ConvertToCanonicFormFeatures | alrosa_importer.py:416-420 | The features' copy, canonicalized, is `Canonical` of the features |
| CanonicForm.NormalizedFrameColumns | alrosa_importer.py:486-508 | A normalized table keeps its cells and has the normalized names, shaped like names, in place |
| CanonicForm.CanonicFrames | alrosa_importer.py:492-511 | The loop of `convert_to_canonic_form_frames`: each listed table normalized and recorded in the registry; a missing table stops it |
| CanonicForm.CanonicFramesMissing | alrosa_importer.py:507 | A missing table stops the conversion |
| CanonicForm.CanonicFramesTables | alrosa_importer.py:494-511 | After success every listed table is normalized, and other keys keep their tables |
| CanonicForm.CanonicFramesKeepOwns | alrosa_importer.py:510 | The conversion never takes a recorded pipe away |
| CanonicForm.CanonicFramesRecorded | alrosa_importer.py:508-510 | After success the pipe is recorded against every normalized column of every listed table |
| CanonicForm.ConvertToCanonicFormFrames | alrosa_importer.py:492-511 | The loop computes `CanonicFrames` and leaves the registry as it says |
| CanonicForm.CanonicPipeTables | alrosa_importer.py:596-611 | A pipe without tables fails; otherwise the features are canonical, every table is normalized, and its names are recorded |
| CanonicForm.ConvertToCanonicForm | alrosa_importer.py:596-611 | No data is returned as is; otherwise `CanonicPipe`'s result and registry |
| FeatureKeys.NormalizeKey | alrosa_convert_features.py:17-28 | `normalize_key`: whitespace squeezed and trimmed, spaces and `-` made `_`, commas dropped, trailing dots stripped |
| FeatureKeys.NormalizeKeyShape | alrosa_convert_features.py:17-28 | A normalized key has no whitespace, `-` or `,` and does not end in `.` |
| FeatureKeys.NormalizeKeyIdempotent | alrosa_convert_features.py:17-28 | Normalizing a key twice equals once |
| FeatureKeys.CleanNumeric | alrosa_convert_features.py:31-43 | Falsy values and both no-data spellings give nothing |
| FeatureKeys.CleanNumericInt | alrosa_convert_features.py:31-43 | A non-zero integer reads as itself |
| FeatureKeys.CleanNumericNumber | alrosa_convert_features.py:31-43 | A non-zero number reads as itself |
| FeatureKeys.CleanNumericText | alrosa_convert_features.py:38-43 | Text other than no-data is parsed with commas as points |
| FeatureKeys.CleanNumericComma | alrosa_convert_features.py:38-41 | `"<digits>,<digits>"` is the number `<digits>.<digits>` |
| FeatureKeys.MineralOfCode | alrosa_convert_features.py:59-68 | The mineral map knows exactly `gar`, `chr`, `cpx`, `ilm`, `ol` |
| FeatureKeys.CodeRoundTrip | alrosa_convert_features.py:59-68 | Every mineral's code maps back to it |
| FeatureKeys.FirstMatch | alrosa_convert_features.py:53 | `re.search`: the match position found is the leftmost from the start |
| FeatureKeys.ExtractTypeNumber | alrosa_convert_features.py:46-70 | `extract_type_number_and_mineral`: the type number and mineral of the leftmost match, or nothing |
| FeatureKeys.ExtractTypeNumberLeftmost | alrosa_convert_features.py:46-70 | The result is the leftmost match's digits and the mineral its lower-cased word names, or nothing |
| FeatureKeys.ExtractAtStart | alrosa_convert_features.py:53-70 | A match at the start of the key decides the result: its number and the mineral its code names |
| FeatureKeys.MatchAtParts | alrosa_convert_features.py:53 | The expression matches `<digits>[,]<spaces>%<spaces><word>` with the digits and the word as groups |
| FeatureKeys.ExtractTypeNumberRoundTrip | alrosa_convert_features.py:46-70 | Keys written the documented way read back as their number and mineral, in any case of the code |
| FeatureKeys.OnlyLeftmostMatchCounts | alrosa_convert_features.py:53-70 | `1%x 2%gar` gives nothing: only the leftmost match counts |
| CanonKeys.Canonical | alrosa_convert_features.py:539-558 | A non-dictionary is returned unchanged |
| CanonKeys.CanonicalKeys | alrosa_convert_features.py:546-556 | The canonical keys are the normalized original keys, each once |
| CanonKeys.CanonicalKeysNormal | alrosa_convert_features.py:546-556 | Every canonical key is in normal form |
| CanonKeys.CanonicalLastWins | alrosa_convert_features.py:547-556 | A key holds the canonical value of the last original key that normalizes to it |
| CanonKeys.CanonValueList | alrosa_convert_features.py:551-555 | Dictionaries in lists are canonicalized; other items stay |
| CanonKeys.CanonicalizeKeys | alrosa_convert_features.py:539-558 | The method returns `Canonical` |
| CanonKeys.CanonicalizeValue | alrosa_convert_features.py:548-556 | The value assigned for an item is `CanonValue` |
| FeatureLookups.FirstHit | alrosa_convert_features.py:240-253 | The position found hits, and none before it from the start does |
| FeatureLookups.Bind | alrosa_convert_features.py:238 | One lookup per mapping entry, all on the node |
| FeatureLookups.FirstHitIff | alrosa_convert_features.py:240-253 | `FirstHit` finds exactly the first item the key hits |
| FeatureLookups.LookupFirstHitWins | alrosa_convert_features.py:238-253 | An entry emits exactly one triple, carrying its first hit's number, when the first hit reads as a number, and nothing otherwise |
| FeatureLookups.LookupStopsAtFirstHit | alrosa_convert_features.py:253 | The search breaks at the first hit even when it is not a number, ignoring later items |
| FeatureLookups.AllLookupsMember | alrosa_convert_features.py:238-253 | A mapping adds what its entries add and nothing else |
| FeatureLookups.AllLookupsShape | alrosa_convert_features.py:238-253 | A mapping's triples are about its entries' nodes with their properties |
| FeatureLookups.FindFirstHit | alrosa_convert_features.py:240-253 | The inner loop returns `FirstHit` |
| FeatureLookups.EmitLookup | alrosa_convert_features.py:240-253 | One entry adds `LookupTriples` |
| FeatureLookups.EmitLookups | alrosa_convert_features.py:238-253 | A mapping loop adds `AllLookups` |
| FeatureMinerals.CompositionsKeep | alrosa_convert_features.py:339-377 | The composition nodes stay distinct drawn blanks, each linked to the pipe and its mineral, and the state only grows |
| FeatureMinerals.CompositionsWithin | alrosa_convert_features.py:339-377 | The compositions speak only of the pipe and blanks they drew |
| FeatureMinerals.OnePerMineral | alrosa_convert_features.py:346-352 | Two `forMineral` triples name the same mineral exactly when they are about the same node |
| FeatureMinerals.CompositionNodes | alrosa_convert_features.py:339-352 | A mineral gets a composition exactly when some key names a type of it with a numeric value |
| FeatureMinerals.CompositionNodesTyped | alrosa_convert_features.py:339-352 | The loop makes a composition node exactly for the minerals with a typed value |
| FeatureMinerals.ValueRecorded | alrosa_convert_features.py:354-377 | Every numeric type key gets a value node with its type number and percentage under its mineral's composition |
| FeatureMinerals.ValueRecordedTyped | alrosa_convert_features.py:354-377 | Each typed item's value node carries its type number and percentage under its mineral's composition |
| FeatureMinerals.NewComposition | alrosa_convert_features.py:348-352 | A new composition node with its three triples |
| FeatureMinerals.NewTypeValue | alrosa_convert_features.py:354-377 | A value node with its four triples |
| FeatureMinerals.AddTypeItem | alrosa_convert_features.py:340-377 | One item of the loop adds `CompStep` |
| FeatureMinerals.AddCompositions | alrosa_convert_features.py:336-377 | The loop adds `Compositions` and returns its nodes |
| FeatureMinerals.MineralLookupsOnCompositions | alrosa_convert_features.py:379-446 | Counts and shares hang only on composition nodes of minerals the mapping names |
| FeatureMinerals.MineralLookupsSubjects | alrosa_convert_features.py:388-403 | Each such triple is about a composition node |
| FeatureMinerals.NoCompositionNoCount | alrosa_convert_features.py:389 | A mineral without a composition gets no count |
| FeatureMinerals.EmitMineralLookups | alrosa_convert_features.py:379-446 | A count mapping adds `MineralLookups` |
| FeatureRdf.ExactEntryShape | alrosa_convert_features.py:113-127 | An exact key lookup writes only its own node and property |
| FeatureRdf.GeoEntryProp | alrosa_convert_features.py:113-127 | A `geo_mapping` entry writes only its own property |
| FeatureRdf.GeoMappingProps | alrosa_convert_features.py:105-127 | The geology node's mapped values carry only the mapping's properties |
| FeatureRdf.GeologySize | alrosa_convert_features.py:129-146 | A length and a width are written exactly when the size has two digit runs, the first as the length and the second as the width; with fewer, neither is written |
| FeatureRdf.SizeOnlyFromSize | alrosa_convert_features.py:129-146 | Length and width triples of the geology node come only from the size entry, never from the mapped values |
| FeatureRdf.GeologyAgeNumeric | alrosa_convert_features.py:116-119 | The age is written only as the number its value reads as |
| FeatureRdf.EmitExact | alrosa_convert_features.py:113-127 | One mapping entry adds `ExactEntry` |
| FeatureRdf.EmitGeoEntry | alrosa_convert_features.py:113-127 | The loop body adds `GeoEntry` |
| FeatureRdf.EmitGeoMapping | alrosa_convert_features.py:113-127 | The loop adds every entry's triples |
| FeatureRdf.EmitSize | alrosa_convert_features.py:129-146 | The size adds `SizeTriples` |
| FeatureRdf.EmitGeology | alrosa_convert_features.py:97-146 | Geology writes `GeologyOut` |
| FeatureRdf.FractionsGrow | alrosa_convert_features.py:163-183 | The fraction loop only adds |
| FeatureRdf.FractionsComplete | alrosa_convert_features.py:163-183 | Every numeric fraction gets a node with its label and percentage |
| FeatureRdf.FractionsSound | alrosa_convert_features.py:163-183 | Everything the loop adds belongs to a numeric fraction |
| FeatureRdf.OlivineFractionWritten | alrosa_convert_features.py:148-183 | A fraction present with a number gets a node under the petrography node |
| FeatureRdf.OlivineFractionNumeric | alrosa_convert_features.py:164-166 | A missing or non-numeric fraction gets no node |
| FeatureRdf.FractionLabelsDistinct | alrosa_convert_features.py:156-161 | The fraction labels differ |
| FeatureRdf.FractionRangeOnly | alrosa_convert_features.py:167-183 | A fraction node's range is its English label and nothing else |
| FeatureRdf.EmitFraction | alrosa_convert_features.py:164-183 | One fraction adds `FractionStep` |
| FeatureRdf.EmitFractions | alrosa_convert_features.py:163-183 | The loop adds `Fractions` |
| FeatureRdf.EmitOlivine | alrosa_convert_features.py:148-183 | Olivine writes `OlivineOut` |
| FeatureRdf.TargetParamsDistinct | alrosa_convert_features.py:192-198 | The five parameters are different properties |
| FeatureRdf.NumericParams | alrosa_convert_features.py:200-207 | Exactly A–D, the first four entries of the mapping, are read as numbers |
| FeatureRdf.TargetNumeric | alrosa_convert_features.py:200-207 | A–D are written only as the numbers their values read as |
| FeatureRdf.TargetTextAlways | alrosa_convert_features.py:208-210 | E is always written as its value's text when present |
| FeatureRdf.EmitTargetEntry | alrosa_convert_features.py:200-210 | One parameter adds `TargetEntry` |
| FeatureRdf.EmitTarget | alrosa_convert_features.py:185-210 | Target writes `TargetOut` |
| FeatureRdf.SubNodeWritten | alrosa_convert_features.py:221-334 | A sub-node's own triples are all written |
| FeatureRdf.SubNodesSubjects | alrosa_convert_features.py:221-334 | Every sub-node triple is about the parent or one of the sub-nodes |
| FeatureRdf.SubNodeContents | alrosa_convert_features.py:221-334 | A sub-node holds exactly its class, its tag and its mapping's values |
| FeatureRdf.AssocClassesSubjects | alrosa_convert_features.py:212-334 | The association node and its four nodes are about the pipe or their own blanks |
| FeatureRdf.AssocMineralsSubjects | alrosa_convert_features.py:336-446 | The compositions and counts are about the pipe or blanks drawn for them |
| FeatureRdf.AssocClassNode | alrosa_convert_features.py:221-334 | Each of the four classification nodes holds exactly its class and its mapping's values |
| FeatureRdf.AssocGeoNode | alrosa_convert_features.py:448-533 | Each geochemistry or geothermal node holds exactly its class, mineral and mapping's values |
| FeatureRdf.EmitSubNode | alrosa_convert_features.py:221-253 | One sub-node adds its triples |
| FeatureRdf.EmitSubNodes | alrosa_convert_features.py:221-533 | Sub-nodes one after the other add `SubNodes` |
| FeatureRdf.EmitAssocNode | alrosa_convert_features.py:212-334 | The association node is made, linked to the pipe and typed, and the given nodes follow under it |
| FeatureRdf.EmitAssocClasses | alrosa_convert_features.py:212-334 | The association node and sections 4.1–4.4 add `AssocClasses` |
| FeatureRdf.EmitAssocMinerals | alrosa_convert_features.py:336-446 | Compositions and counts add `AssocMinerals` |
| FeatureRdf.EmitAssoc | alrosa_convert_features.py:212-533 | The association writes `AssocOut` |
| FeatureRdf.WithPartExtends | alrosa_convert_features.py:97-533 | A section block only adds triples and draws later blanks |
| FeatureRdf.EmitPart | alrosa_convert_features.py:97-533 | One `if name in data_dict:` section adds exactly what `WithPart` says |
| FeatureRdf.FeatureOut | alrosa_convert_features.py:80-535 | `convert_features_to_rdf`: the pipe's header triples, then geology, olivine, target and association, each when present |
| FeatureRdf.FeatureHeader | alrosa_convert_features.py:86-95 | The pipe is always labelled and identified, and typed only when no pipe node was given |
| FeatureRdf.FeatureHeaderOnly | alrosa_convert_features.py:86-95 | A dictionary without the four sections gives just the header |
| FeatureRdf.FeaturePartWritten | alrosa_convert_features.py:97-533 | Every section present is written in full |
| FeatureRdf.ConvertFeaturesToRdf | alrosa_convert_features.py:80-535 | The converter adds exactly `FeatureOut`: the header, then each section present, in order |

## Left out

- Reading workbooks is not modelled: xlrd and openpyxl opening, `sh.row`, `wb.sheet_names()`. A
  sheet is a sequence of rows of cells, and a workbook is a sequence of named sheets.
- Other I/O is not modelled either:
  - every `print`;
  - pickle save and load, `search_file_to_root`, both `main` functions;
  - `process_excel_file`, `import_excel_table_into_dict` and `export_tube`;
  - `upload`, `update`, `load_lithology_ontology` and `check_ontology_classes`;
  - ontology file loading and proxy settings.
  These are file, network or process concerns with no logic of their own to prove.
- The periodic table (`ElToIRI`) is a parameter, because it comes from ontology files.
  The texture table is the source's own literal table (`Textures`, from
  `ROCK_TEXTURE_MAPPING`), passed to the importer state as a field. The global graph `G`
  and the global `COMPOUNDS` dictionary are a `Store` and a `CompoundCache` passed to the
  parsers.
- `generate_deterministic_uuid` is not modelled: it is hashing.
- The `pu.db` breakpoint inside the association section (alrosa_convert_features.py:237)
  is not modelled. It opens an interactive debugger and changes no data.
- Floats: numbers are finite decimals.
  - `float` parsing is a grammar of sign, digits, point and exponent. `inf`, `nan`,
    underscores and rounding to binary are not modelled.
  - `str` of a number is written in positional notation, with no trailing zeros after
    the point. Python's exponent spelling is not modelled: below 1e-4 and from 1e16 up
    it writes floats as `1e-05` or `1e+16`. The spelling reaches feature keys, sample
    names, header names and the digit runs of a pipe's size.
- `degs`, the degree-minute-second reading (i_pol.py:528-539), is float arithmetic and is
  not computed. A text coordinate becomes the literal `DegreesLit(text)`, which stands for
  whatever `degs` returns. The model therefore does not tell a converted value from text
  that `degs` leaves unchanged.
- Unicode character categories (`\w`, `unicodedata.category`) are approximated by ASCII,
  Greek and Cyrillic letters and the digits. `str.isdigit` is ASCII digits.
- Letter case is ASCII and Cyrillic.
- `quit()`, a `KeyError` from `State[...]` and a failed `assert` end the run with an `Abort`
  status. The process exit itself is not modelled.
- `cell.ctype` is reduced to empty, text or number. Dates and booleans are not modelled.
- pandas is not modelled beyond what the import functions use.
  - A DataFrame is a list of labelled columns.
  - `NaN` labels are treated as missing labels, like `None`.
  - Aliasing between the frames given to `convert_to_canonic_form_frames` and the returned
    copy is not modelled. The model returns the normalized tables, which is what the
    aliasing produces.
- `add_to_dict_if_not_none` is modelled as written: anything but `None` is stored, even
  though its docstring speaks of non-empty values.
- `keymaster_update` is not modelled for a `dict` section: the model reads a list of items.
  `set.update` on a dictionary's keys behaves the same.
- The sections of the feature dictionary are flat dictionaries of cell values. Nested
  values inside a section are not read by the converter.
- FeatureKeys.ExtractTypeNumber: returns `(type number, mineral)` or nothing, rather than
  the source's three-element tuple. The mineral code and IRI both follow from the mineral
  (`Code`, `MineralIri`).
- FeatureRdf.ConvertFeaturesToRdf: requires that a given pipe node is not a blank node. A
  blank node given by the caller could collide with the blanks the converter draws, which
  the model's blank counter cannot rule out.
- CanonicForm.ConvertToCanonicFormFeatures: requires the features to have unique keys,
  which every Python dictionary has.
- ImporterColumns.NormalizedNamesDistinct: holds only when every label is present. This
  follows the source, where a missing label is named `val_{i}` without the duplicate
  check (see `MissingLabelRepeatsName`).
- ImporterCells.CleanedStable: cleaning is stable except for text that cleaning turns into
  `н.д.` by replacing its commas, because the second pass then clears it (see
  `CleaningMakesNoData`).
- KeyMaster.Updated: a plain list given to a section kept as a dictionary is a failed update.
  In the source `dict.update` stores the first character of each two-character name as a
  key with the second as its value, and raises part-way for any other name. The only
  caller passes pipe names, so it never reaches this case.
