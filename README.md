# Nozzle geometry variants, modelled and proved in Dafny

This project models the geometry-generation side of a muon-collider nozzle
shielding study. It also proves what that code guarantees.

- **The variant generator** (`scripts/NozzleCreationv2.py`):
  - It holds two geometry tables, the tungsten nozzle (`NozzleW_*`) and the
    "blackhole" volume inside it (`NozzleBlackhole_*`). Each table maps a
    (detector name, z) key to the pair (rmin, rmax).
  - The tables are shifted into tip-relative coordinates.
  - A requested outer-radius reduction is validated at the chosen start
    position. An invalid request falls back to the suggested reduction, or is
    refused.
  - The blackhole table is rewritten. Planes before the start are dropped,
    the first plane is moved to the start, and every reduction is capped so
    that a minimum thickness survives.
  - The nozzle's inner radius is realigned with the new blackhole outer radius.
  - Each target detector's zplane list is rebuilt in the original coordinates.
- **The earlier 100-step sweep** (`scripts/NozzleCreation.py`): a kill zone
  behind a moving front, a nozzle with a shrinking inner radius, a table of
  kill-zone outer radii that shrinks in place with a floor, and a patched
  include line.
- **The stand-alone helpers**:
  - `scripts/radius_calc.py`: a radius on the line through two planes.
  - `simulation/.../radius_calc.py`: the same, plus the radius less 0.4 cm.
  - `scripts/z_calc.py`: the inverse, i.e. the position where the thickness
    takes a given value.
- **The bookkeeping of the LCIO analyzer** (`scripts/slcio_analyzer.py`):
  - the dataset name derived from a file's relative path;
  - the grouping of found files into datasets;
  - the event count under the optional cap.

Python dicts keyed by `(name, z)` are sequences of entries in insertion
order (`Geometry.Table`). The running `actual_reduction` of the blackhole
rewrite depends on the order in which entries are visited, which is why order
is kept. Dict assignment is `Geometry.Put`: it overwrites in place when the
key is present and appends otherwise. Radii and z are `real`s. The base
tables' whole numbers (z 6, 15, 100, 595, radii 42, 43) are Python ints in
the program, and `format_units` writes an int without a decimal point
(`Units.FormatIntUnits`); the model treats every value as a float, so it
writes "595.0*cm" where the program writes "595*cm" (`Units.WholeValueText`
states that difference exactly; see "## Left out").

Python's number formatting is written out as exact functions on reals:
- `:.Nf` with round-half-even;
- `round(v, 8)`;
- `str` of a float as its shortest repr, and `str` of an int as its digits;
- `float(...)` on the decimal grammar.

Loops that fill tables are methods proved equal to a fold or a filter. The
properties are lemmas about those functions.

Two facts of the source shape many of the properties:
- The base tables come from an offset that is applied to the written z only.
  So the right side of each base table starts 4.5176 cm from the tip, and the
  left side 16.5176 cm from it (`Geometry.BaseOffsetIsOneSided`).
- The blackhole rewrite is handed the blackhole table alone. A start plane
  before 4.5176 cm therefore always takes the fallback radii (0.0001, 0.001).
  This caps the running reduction at 0.0008 cm for every later plane, whatever
  was requested (`BlackholeInGeneration.GenerationReductionCollapses`).

## Model

| member | source | states |
|---|---|---|
| `Geometry.Get` | scripts/NozzleCreationv2.py:681-683 | a key is found exactly when some entry has it, and what is found is that entry's radii |
| `Geometry.Put` | scripts/NozzleCreationv2.py:78 | `d[k] = v` keeps every existing key in its place, adds at most one entry, and holds the entry `(k, v)` afterwards |
| `Geometry.PutGet` | scripts/NozzleCreationv2.py:78 | after `d[k] = v`, reading `k` gives `v` and every other key reads as before |
| `Geometry.PutMembers` | scripts/NozzleCreationv2.py:78 | assigning into a dict leaves exactly the new entry plus the old entries of other keys |
| `Geometry.PutIsDict` | scripts/NozzleCreationv2.py:78 | assignment keeps keys unique; the table grows by one exactly when the key is new |
| `Geometry.PutFresh` | scripts/NozzleCreationv2.py:78 | assigning a new key appends it at the end (insertion order) |
| `Geometry.ApplyZOffset` | scripts/NozzleCreationv2.py:69-71 | defines the move of a z by the offset, -6 by default; `Geometry.ApplyZOffsetRoundTrip` states that moving back restores it |
| `Geometry.ApplyZOffsetRoundTrip` | scripts/NozzleCreationv2.py:69-71 | shifting by an offset and then by its negation gives back the z |
| `Geometry.Shifted` | scripts/NozzleCreationv2.py:73-79 | the shifted table has the same entries in the same order, each z moved by the offset and name and radii kept |
| `Geometry.OffsetGeometryDict` | scripts/NozzleCreationv2.py:73-79 | the loop builds exactly the shifted table |
| `Geometry.ShiftedIsDict` | scripts/NozzleCreationv2.py:76-78 | shifting a dict keeps its keys distinct, so no entry is overwritten |
| `Geometry.ShiftedRoundTrip` | scripts/NozzleCreationv2.py:73-79 | shifting by any offset and back by its negation restores the table |
| `Geometry.ShiftedGet` | scripts/NozzleCreationv2.py:76-78 | the radii stored at `(name, z)` are found at `(name, z + offset)` after shifting |
| `Geometry.BlackholeBase` | scripts/NozzleCreationv2.py:443-460 | the blackhole base table has the 12 planes of the detector's own table, and moving it back by 6 cm gives exactly that table |
| `Geometry.NozzleBase` | scripts/NozzleCreationv2.py:462-481 | the nozzle base table has the 14 planes of the detector's own table, and moving it back by 6 cm gives exactly that table |
| `Geometry.BaseOffsetIsOneSided` | scripts/NozzleCreationv2.py:443-481 | after the offset the right sides start at 4.5176 (blackhole) and 0 (nozzle); the left sides start at -16.5176 and -12 |
| `Geometry.BaseTablesAreDicts` | scripts/NozzleCreationv2.py:443-481 | both base tables have distinct keys |
| `Numerals.FixedShape` | scripts/NozzleCreationv2.py:786-788 | a fixed-point text has only digits, `.` and `-`; it starts with a digit for a non-negative value and with `-` and a digit otherwise |
| `Numerals.Fixed` | scripts/NozzleCreationv2.py:786-788 | the `:.4f`-style text is never empty; `Numerals.FixedShape` states its characters |
| `Numerals.ReprScaled` | scripts/NozzleCreationv2.py:423-424 | defines `str()` of the value n / 10^8; `Numerals.ParseRepr` states that `float()` reads it back exactly and `Numerals.ReprShape` its form |
| `Numerals.ParseFloat` | scripts/NozzleCreationv2.py:414-417 | defines `float()` on a decimal text with an optional sign, fraction and exponent, failing otherwise; `Numerals.ParseRepr` states it inverts `Numerals.ReprScaled` |
| `Numerals.Round8` | scripts/NozzleCreationv2.py:423 | `round(v, 8)` is within 5e-9 of `v` |
| `Numerals.ParseRepr` | scripts/NozzleCreationv2.py:416-424 | parsing the repr of a multiple of 1e-8 gives back exactly that value |
| `Numerals.IntToString` | scripts/NozzleCreationv2.py:424 | defines `str()` of an int: its digits, after '-' when negative; `Numerals.ParseIntText` states that `float()` reads it back |
| `Numerals.ParseIntText` | scripts/NozzleCreationv2.py:414-424 | parsing the text of an int gives back that int's value |
| `Numerals.ReprOfWhole` | scripts/NozzleCreationv2.py:423-424 | the repr of a whole float below 10^16 in magnitude is the int's text followed by ".0" |
| `Numerals.ReprShape` | scripts/NozzleCreationv2.py:424 | the repr of a rounded value is a signed number text (never a name, no spaces or `*`) |
| `Numerals.ZeroPadValue` | scripts/NozzleCreation.py:108 | the `:03` text of a step reads back as the step |
| `Numerals.ZeroPadLength` | scripts/NozzleCreation.py:108 | the `:03` text of a step below 1000 has exactly three digits |
| `Text.StripShape` | scripts/NozzleCreationv2.py:394 | `strip` removes exactly the leading and trailing whitespace |
| `Text.JoinSplit` | scripts/slcio_analyzer.py:53 | splitting at a separator loses nothing: joining the parts gives the text back |
| `Text.IndexOf` | scripts/NozzleCreationv2.py:404 | `split('*', 1)` cuts at the first `*`: none comes before the index found |
| `Text.SplitExt` | scripts/slcio_analyzer.py:59 | `os.path.splitext` cuts a text into stem and extension that concatenate back; the extension is empty or a single dot-suffix with no `/` |
| `Text.SplitExtOfName` | scripts/NozzleCreation.py:109 | the stem of `stem + ".ext"` is `stem` whenever the stem has a character other than a dot, even a leading-dot stem such as `.hidden` |
| `Text.SplitExtLeadingDots` | scripts/slcio_analyzer.py:57-59 | a name whose only dots are leading ones (`.hidden`) has no extension and is kept whole |
| `Sorting.SortBy` | scripts/NozzleCreationv2.py:119 | sorting is a permutation of its input |
| `Sorting.SortBySorted` | scripts/NozzleCreationv2.py:519-521 | the sorted list is ordered by its key |
| `Sorting.SortByMembers` | scripts/NozzleCreationv2.py:665 | sorting keeps exactly the same members |
| `Sorting.SortByStable` | scripts/NozzleCreationv2.py:519-521 | the sort is stable: the elements sharing any one key keep their input order |
| `Units.ConstantRef` | scripts/NozzleCreationv2.py:396-401 | a known name gives its (value, unit); nothing is found exactly when neither the name nor, after a leading `-`, the rest of it is known |
| `Units.ParseUnits` | scripts/NozzleCreationv2.py:385-420 | a known constant returns its pair; parsing can only fail (raise) when the text holds a `*` |
| `Units.NumberWithUnit` | scripts/NozzleCreationv2.py:403-414 | the part before `*` fails exactly when it is neither a constant, a negated constant nor a number, with the ValueError text of `float()`; the unit is the part after `*` |
| `Units.FloatError` | scripts/NozzleCreationv2.py:414 | defines the text of the ValueError `float(num)` raises: "could not convert string to float: " and the repr of the text; `Units.FloatErrorOfPlain` states it for plain words |
| `Units.FloatErrorOfPlain` | scripts/NozzleCreationv2.py:414 | for a word of printable characters without quote or backslash the message is the word in single quotes |
| `Units.UnparseableProductError` | scripts/NozzleCreationv2.py:407-414 | a product such as "abc*cm" fails with "could not convert string to float: 'abc'" |
| `Text.StrRepr` | scripts/NozzleCreationv2.py:414 | `repr` of a text: at least two characters longer, between matching quotes; `Text.ReprOfPlain` states the quote choice |
| `Text.ReprOfPlain` | scripts/NozzleCreationv2.py:414 | a printable text without backslashes that does not hold both quote kinds is written unchanged, in double quotes when it holds a single quote and in single quotes otherwise |
| `Units.ParseNegatedConstant` | scripts/NozzleCreationv2.py:399-401 | `"-NAME"` returns the negated value of `NAME` with its unit |
| `Units.ParseUnparseablePlain` | scripts/NozzleCreationv2.py:416-420 | a plain text that is no constant and no number yields `(0.0, '')` |
| `Units.ParseSplitsAtFirstStar` | scripts/NozzleCreationv2.py:403-414 | a product text is split at its first `*` and both halves are stripped |
| `Units.FormatUnits` | scripts/NozzleCreationv2.py:422-424 | defines the text of a value rounded to 8 decimals, followed by `*unit` when there is a unit; `Units.ParseFormatRoundTrip` and `Units.FormatIdempotent` state how it reads back |
| `Units.ParseFormatRoundTrip` | scripts/NozzleCreationv2.py:385-424 | parsing what `format_units(v, u)` writes gives `(round(v, 8), u)` for a unit without surrounding spaces |
| `Units.FormatIntUnits` | scripts/NozzleCreationv2.py:422-424 | defines `format_units` on an int: `round` keeps the int and the text has no decimal point; `Units.ParseFormatIntRoundTrip` states how it reads back |
| `Units.ParseFormatIntRoundTrip` | scripts/NozzleCreationv2.py:385-424 | parsing what `format_units(i, u)` writes for an int gives `(i, u)` |
| `Units.WholeValueText` | scripts/NozzleCreationv2.py:422-424 | for a whole value, `FormatUnits` writes the int's text, then ".0", then `*unit`; `FormatIntUnits` writes the same without ".0" |
| `Units.FarPlaneText` | scripts/NozzleCreationv2.py:471 | the far nozzle plane's int 595 is written "595*cm" by the program and "595.0*cm" by the model |
| `Units.FormatIdempotent` | scripts/NozzleCreationv2.py:422-424 | formatting an already rounded value writes the same text |
| `Units.DefaultNamesNotNumeric` | scripts/NozzleCreationv2.py:387-392 | no default constant name starts like a number, so numbers never hit the constant lookup |
| `Interpolation.NozzleRadiusAt` | scripts/NozzleCreationv2.py:85-101 | the radius is 1.0 up to the tip, 17.57473619 from the kink on, and between the two in between |
| `Interpolation.NozzleRadiusMonotone` | scripts/NozzleCreationv2.py:94-101 | the radius never decreases with z |
| `Interpolation.NozzleRadiusContinuous` | scripts/NozzleCreationv2.py:94-101 | the radius grows by at most the slope times the distance, so it is continuous at both ends |
| `Interpolation.NozzleRadiusLine` | scripts/NozzleCreationv2.py:99-101 | inside (0, 94) the radius lies on the line from (0, 1.0) to (94, 17.57473619) |
| `Interpolation.InterpolateGeometryValues` | scripts/NozzleCreationv2.py:426-437 | each radius at z lies on the straight line through that radius at z1 and at z2; planes within 1e-10 of each other give the first plane's radii |
| `Interpolation.LerpOnLine` | scripts/NozzleCreationv2.py:433-435 | the value at t = (z - z1)/(z2 - z1) lies on the line through (z1, a) and (z2, b) |
| `Interpolation.InterpolateAtFirst` | scripts/NozzleCreationv2.py:426-437 | at z1 the first plane's radii come back |
| `Interpolation.InterpolateAtSecond` | scripts/NozzleCreationv2.py:430-437 | at z2 the second plane's radii come back, unless the planes are within 1e-10 and the first plane's are kept |
| `Interpolation.InterpolateBetween` | scripts/NozzleCreationv2.py:433-437 | between z1 and z2 each radius lies between its two end values |
| `Interpolation.PositionsOfNonEmpty` | scripts/NozzleCreationv2.py:514-518 | a component has positions exactly when the table names it |
| `Interpolation.GroupPositions` | scripts/NozzleCreationv2.py:514-518 | the grouping loop creates a list for exactly the components present, holding their planes in table order |
| `Interpolation.SortedPositions` | scripts/NozzleCreationv2.py:514-521 | grouping and then sorting each list gives the sorted-positions map |
| `Interpolation.SortedPositionsContents` | scripts/NozzleCreationv2.py:519-521 | each component's list is sorted by \|z\| and is a permutation of its planes |
| `Interpolation.FirstBracket` | scripts/NozzleCreationv2.py:616-620 | the scan finds the first consecutive pair around the position, or reports that none exists |
| `Interpolation.GetInterpolatedValues` | scripts/NozzleCreationv2.py:609-632 | the lookup, scan and clamping compute the interpolated values of the component's list (empty when unknown) |
| `Interpolation.InterpolatedValues` | scripts/NozzleCreationv2.py:609-632 | an empty list gives `(0.1, 0.2)`; otherwise the result is that fallback, or one plane's radii, or lies between the radii of a plane and the next one |
| `Interpolation.InterpolatedClampsBelow` | scripts/NozzleCreationv2.py:624-625 | before the first plane the first plane's radii are used |
| `Interpolation.InterpolatedClampsAbove` | scripts/NozzleCreationv2.py:628-629 | after the last plane the last plane's radii are used |
| `Interpolation.InterpolatedUnknownComponent` | scripts/NozzleCreationv2.py:613-632 | an unknown component gives the fallback `(0.1, 0.2)` |
| `Interpolation.InterpolatedSinglePlane` | scripts/NozzleCreationv2.py:616-632 | a component with a single plane, asked at that plane's \|z\|, also gives the fallback `(0.1, 0.2)` |
| `Interpolation.InterpolatedWithinRange` | scripts/NozzleCreationv2.py:616-621 | inside a sorted list's range the result lies between the radii of two consecutive planes around the position |
| `Validation.RelevantEmpty` | scripts/NozzleCreationv2.py:111-117 | no relevant points exactly when no entry has the prefix and positive z |
| `Validation.CollectRelevant` | scripts/NozzleCreationv2.py:111-114 | the loop collects the (z, rmin, rmax) of the entries with the prefix and positive z, in table order |
| `Validation.FirstNear` | scripts/NozzleCreationv2.py:126-130 | finds the first point within 1e-6 of the position, or reports that none is |
| `Validation.FirstSurrounding` | scripts/NozzleCreationv2.py:134-143 | finds the first consecutive pair around the position, or reports that none exists |
| `Validation.LocateRadii` | scripts/NozzleCreationv2.py:122-154 | the match, interpolation and extrapolation steps compute the radii at the position |
| `Validation.ScanNear` | scripts/NozzleCreationv2.py:125-130 | the first loop finds the first plane within 1e-6 of z, or reports that there is none |
| `Validation.ScanSurrounding` | scripts/NozzleCreationv2.py:133-143 | the second loop finds the first pair of neighbouring planes around z, or reports that there is none |
| `Validation.RadiiAtExistingPlane` | scripts/NozzleCreationv2.py:126-130 | a point within 1e-6 of the position supplies the radii |
| `Validation.RadiiBeforeFirstPlane` | scripts/NozzleCreationv2.py:147-151 | before the first point the nozzle's approximate radius is used with a 1 cm thickness |
| `Validation.ValidateReductionAtPosition` | scripts/NozzleCreationv2.py:103-174 | the method returns the verdict of the validation at that position |
| `Validation.ValidationWithoutPlanes` | scripts/NozzleCreationv2.py:116-117 | with no relevant points the result is invalid, "No {prefix} geometry found", with suggestion 0 |
| `Validation.JudgeValid` | scripts/NozzleCreationv2.py:157-174 | valid exactly when reduction < rmax, reduction < available - 0.0001 and reduction <= 0.9 · available; a valid verdict suggests the request itself (negative or not) with the message "Reduction is valid"; every refused verdict's suggestion is >= 0 |
| `Validation.ValidationSuggestion` | scripts/NozzleCreationv2.py:116-174 | every refused verdict's suggestion is >= 0; a valid verdict suggests the request itself |
| `Validation.Judge` | scripts/NozzleCreationv2.py:157-174 | a valid verdict suggests the request itself; a refused verdict suggests a reduction >= 0 |
| `Validation.ValidationAt` | scripts/NozzleCreationv2.py:103-174 | defines the verdict: refusal with suggestion 0 when no plane of the component lies at positive z, else the judgment of the radii found at z; `Validation.ValidationWithoutPlanes` and `Validation.ValidationSuggestion` state its outcomes |
| `Validation.RadiiAt` | scripts/NozzleCreationv2.py:125-155 | defines the radii at z: a plane within 1e-6, else the interpolation in the first surrounding pair, else before the first plane the nozzle's linear outer radius and 1 cm less, else the last plane; `Validation.RadiiAtExistingPlane` and `Validation.RadiiBeforeFirstPlane` state the first and third cases |
| `Validation.SuggestionAccepted` | scripts/NozzleCreationv2.py:165-174 | for a reduction below rmax with more than ten times the minimum thickness available, the suggestion of a refused reduction is itself valid |
| `Validation.RadiusSuggestionRefused` | scripts/NozzleCreationv2.py:160-165 | when the reduction exceeds rmax and the thickness bound is the smaller one, the suggestion is `available - 0.0001`, which the next check refuses again |
| `Validation.MinOf` | scripts/NozzleCreationv2.py:200 | `min` of a non-empty list is a member no greater than any other |
| `Validation.ValidateConfiguration` | scripts/NozzleCreationv2.py:176-202 | valid exactly when no message was collected; the message and suggestion are those of the single validated position, and the suggestion is 0 when valid |
| `Blackhole.BlackholeMinAbsZ` | scripts/NozzleCreationv2.py:502 | the smallest \|z\| of the blackhole entries; absent exactly when there are none |
| `Blackhole.Cap` | scripts/NozzleCreationv2.py:585-586 | a non-negative reduction is capped into [0, reduction], and kept when it leaves more than the minimum thickness |
| `Blackhole.StartRadii` | scripts/NozzleCreationv2.py:543-566 | the radii of a new start plane have rmin >= 0.0001 |
| `Blackhole.StepRadii` | scripts/NozzleCreationv2.py:578-603 | every written blackhole plane has rmax >= rmin + 0.0001 |
| `Blackhole.ModifyBlackholeGeometryAbsolute` | scripts/NozzleCreationv2.py:487-607 | fails (the `min` of nothing) exactly when the table has no blackhole entry, otherwise returns the dict and the changes the loop's fold computes |
| `Blackhole.ProcessEntry` | scripts/NozzleCreationv2.py:526-605 | one loop iteration updates the dict, the changes and the running reduction as one step of the fold |
| `Blackhole.StartPlaneRadii` | scripts/NozzleCreationv2.py:543-566 | computes the new start plane's radii: extrapolated from the nozzle's first two planes, else the fallback |
| `Blackhole.Step` | scripts/NozzleCreationv2.py:526-605 | defines one iteration of the loop: other components copied, planes closer than the start skipped, and every other blackhole plane written with its new radii and recorded; `Blackhole.ProcessEntry` computes it in place |
| `Blackhole.Run` | scripts/NozzleCreationv2.py:526-605 | defines the loop as a fold of `Step` over the entries in order; `BlackholeProperties.RunShape`, `BlackholeProperties.RunActualBounds` and `BlackholeProperties.RunChanges` state what it keeps |
| `BlackholeProperties.RunShape` | scripts/NozzleCreationv2.py:526-605 | the loop keeps a dict, sound blackhole planes, and other entries copied from the base |
| `BlackholeProperties.RunActualBounds` | scripts/NozzleCreationv2.py:524-599 | the running reduction stays within [0, requested] at every step |
| `BlackholeProperties.RunChanges` | scripts/NozzleCreationv2.py:579-605 | with one blackhole name per side, every written blackhole plane has its rmax recorded at its z |
| `BlackholeProperties.StartClamped` | scripts/NozzleCreationv2.py:509-511 | the start is raised to 0.00001 and kept otherwise |
| `BlackholeProperties.ModifyCopiesOthers` | scripts/NozzleCreationv2.py:527-529 | entries of other components are copied unchanged, and every other entry of the result comes from the base |
| `BlackholeProperties.ModifyBlackholePlanes` | scripts/NozzleCreationv2.py:535-605 | no blackhole plane of the result lies closer to the tip than the start, and each keeps the minimum thickness |
| `BlackholeProperties.ModifyKeepsPlanes` | scripts/NozzleCreationv2.py:535-592 | every blackhole plane at or beyond the start is written under its key, and the original first plane is written moved to the start |
| `BlackholeProperties.ModifyRecordsChanges` | scripts/NozzleCreationv2.py:579-605 | each written blackhole plane's rmax is the one recorded in the changes at its z |
| `BlackholeProperties.ModifyActualBounds` | scripts/NozzleCreationv2.py:524-599 | for a non-negative request the final running reduction lies in [0, requested] |
| `BlackholeProperties.RegularPlaneReduced` | scripts/NozzleCreationv2.py:593-605 | a plane after the start keeps its key and rmin and loses at most the running reduction from rmax (exactly that when thick enough, never growing when it had the minimum thickness); the running reduction is unchanged |
| `BlackholeProperties.StartBeforeFirstPlaneCaps` | scripts/NozzleCreationv2.py:568-571 | at a start before the first plane, a request at least the new start plane's thickness less the minimum is cut to exactly that |
| `BlackholeInGeneration.BaseLayout` | scripts/NozzleCreationv2.py:443-460 | the blackhole base table: 12 planes, right at positive z and left at negative z, the first at 4.5176 |
| `BlackholeInGeneration.BaseMinAbsZ` | scripts/NozzleCreationv2.py:502 | on the base table the original first plane is at 4.5176 |
| `BlackholeInGeneration.GenerationStartRadii` | scripts/NozzleCreationv2.py:547-566 | on the blackhole table alone a new start plane always gets `(0.0001, 0.001)` |
| `BlackholeInGeneration.GenerationFirstStep` | scripts/NozzleCreationv2.py:568-571 | a start before 4.5176 with a request of at least 0.0008 caps the reduction at 0.0008 |
| `BlackholeInGeneration.GenerationActualStays` | scripts/NozzleCreationv2.py:593-603 | after that first step the running reduction stays 0.0008 |
| `BlackholeInGeneration.GenerationReductionCollapses` | scripts/NozzleCreationv2.py:795-797 | during variant generation every kept later plane keeps its rmin and loses at most 0.0008 of its rmax |
| `NozzleAdjust.AdjustedRmin` | scripts/NozzleCreationv2.py:711-724 | rmin is kept before the start; from the start it takes the blackhole's new rmax at that z when thick enough; the guard never leaves a changed rmin above rmax - 0.0001 |
| `NozzleAdjust.Adjusted` | scripts/NozzleCreationv2.py:705-726 | every entry is adjusted on its own, in table order |
| `NozzleAdjust.StartPlane` | scripts/NozzleCreationv2.py:737-745 | an added start plane takes the nozzle radius at the start as rmax and the blackhole's rmax as rmin when that leaves the minimum thickness; it never leaves less |
| `NozzleAdjust.AdjustNozzleForBlackhole` | scripts/NozzleCreationv2.py:694-747 | the method computes the adjusted nozzle table |
| `NozzleAdjust.AdjustPlanes` | scripts/NozzleCreationv2.py:705-726 | the first loop rewrites every entry as the adjustment says |
| `NozzleAdjust.AdjustOne` | scripts/NozzleCreationv2.py:706-726 | one iteration's radii: others copied, nozzle rmin adjusted with the guard |
| `NozzleAdjust.EnsureStartPlane` | scripts/NozzleCreationv2.py:729-745 | one side of the second loop adds a start plane or changes nothing |
| `NozzleAdjust.AdjustedKeys` | scripts/NozzleCreationv2.py:705-734 | adjusting keeps the keys, so the existence check sees the same planes |
| `NozzleAdjust.AddStartPlaneAppends` | scripts/NozzleCreationv2.py:734-745 | a start plane is appended only when no plane lies within 1e-6 of the start and the signed start is a key of the changes |
| `NozzleAdjust.AdjustNozzleResult` | scripts/NozzleCreationv2.py:699-747 | the result is the adjusted table followed by the right and then the left start plane when each is added; it is a dict |
| `NozzleAdjust.AdjustKeepsPlanes` | scripts/NozzleCreationv2.py:705-726 | every entry keeps its key and rmax; other components and planes before the start are unchanged |
| `NozzleAdjust.AdjustMeetsBlackhole` | scripts/NozzleCreationv2.py:714-724 | from the start a nozzle plane's rmin meets the blackhole's new rmax at its z, when that leaves the minimum thickness |
| `NozzleAdjust.AdjustNozzle` | scripts/NozzleCreationv2.py:694-747 | defines the result as the two loops at the start distance max(0.00001, z_start); `NozzleAdjust.AdjustNozzleResult` states it entry by entry |
| `GeometryFile.PlanesFor` | scripts/NozzleCreationv2.py:654-659 | the collected planes are exactly the detector's modification entries |
| `GeometryFile.CollectPlanes` | scripts/NozzleCreationv2.py:654-659 | the loop over the modifications collects exactly those planes |
| `GeometryFile.BuildZplanes` | scripts/NozzleCreationv2.py:654-671 | the detector's new zplanes are its planes sorted by \|z\|, each written as three unit texts |
| `GeometryFile.EmitZplanes` | scripts/NozzleCreationv2.py:666-671 | the loop writes one zplane per sorted plane, in order |
| `GeometryFile.ModifyDetectors` | scripts/NozzleCreationv2.py:646-688 | fails exactly when some detector's rewrite fails; otherwise every detector is rewritten in document order |
| `GeometryFile.PlanesForCount` | scripts/NozzleCreationv2.py:655-659 | no plane is collected twice |
| `GeometryFile.WrittenPlanes` | scripts/NozzleCreationv2.py:655-665 | the written planes are exactly the detector's entries, each once, sorted by non-decreasing \|z\| |
| `GeometryFile.WritingRestoresOriginalZ` | scripts/NozzleCreationv2.py:658 | writing adds 6 back, so a shifted table is written at its original z |
| `GeometryFile.WrittenAttributesParse` | scripts/NozzleCreationv2.py:668-670 | each written attribute reads back as the value rounded to 8 digits, in cm |
| `GeometryFile.UpdateZplane` | scripts/NozzleCreationv2.py:674-688 | a zplane that is not refused keeps its z; when it changes, both its radii are written |
| `GeometryFile.RminReadFirst` | scripts/NozzleCreationv2.py:684-685 | on a hit, an unparseable rmin raises its own error whatever rmax holds, missing or not |
| `GeometryFile.DetectorZplanes` | scripts/NozzleCreationv2.py:646-688 | defines a detector's zplanes: kept outside the target detectors, rebuilt from its entries when it has some, else updated one by one; `GeometryFile.ModifyDetectors` applies it to every detector |
| `GeometryFile.ElseBranchChangesNothing` | scripts/NozzleCreationv2.py:673-688 | a detector without entries keeps each zplane; only an unparseable z raises |
| `GeometryFile.DetectorWithoutEntriesUnchanged` | scripts/NozzleCreationv2.py:673-688 | a detector without entries whose z's parse is left as it was |
| `GeometryFile.DetectorsWithEntriesRewritten` | scripts/NozzleCreationv2.py:646-671 | when every target detector has entries the rewrite succeeds, leaves other detectors alone and replaces each target's zplanes by its sorted entries |
| `Variant.Merge` | scripts/NozzleCreationv2.py:764 | defines `{**a, **b}` as every entry of `b` assigned into `a` in order; `Variant.MergeGet`, `Variant.MergeKeepsOrder` and `Variant.MergeDisjoint` state what it reads and keeps |
| `Variant.MergeGet` | scripts/NozzleCreationv2.py:764 | in `{**a, **b}` a key reads from `b` when `b` has it, else from `a` |
| `Variant.MergeIsDict` | scripts/NozzleCreationv2.py:764 | merging into a dict gives a dict |
| `Variant.MergeKeepsOrder` | scripts/NozzleCreationv2.py:805 | the keys of `a` keep their places at the front of the merge |
| `Variant.MergeDisjoint` | scripts/NozzleCreationv2.py:764 | merging tables with disjoint keys concatenates them |
| `Variant.CombinedBaseIsConcat` | scripts/NozzleCreationv2.py:762-764 | the combined base is the nozzle table followed by the blackhole table |
| `Variant.ValidationIgnoresOthers` | scripts/NozzleCreationv2.py:111-117 | entries outside the prefix do not change the validation |
| `Variant.CombinedValidation` | scripts/NozzleCreationv2.py:764-769 | validating the combined base is validating the nozzle base alone |
| `Variant.Decide` | scripts/NozzleCreationv2.py:771-782 | the generation proceeds exactly when the configuration is valid or the suggestion is positive; it proceeds with the request or, when invalid, with the suggestion |
| `Variant.DecisionFollowsValidation` | scripts/NozzleCreationv2.py:771-782 | the generation proceeds exactly when the configuration is valid or the suggestion is > 0, with the suggestion as the reduction; a refusal's message always ends in "0.0000 cm" |
| `Variant.RejectMessage` | scripts/NozzleCreationv2.py:773-775 | the error message lists the validation message and the suggestion with four decimals |
| `Variant.FallbackAccepted` | scripts/NozzleCreationv2.py:771-780 | when the nozzle is thick enough at the start, the fallback reduction passes validation |
| `Variant.VariantNameShape` | scripts/NozzleCreationv2.py:785-786 | the variant name is non-empty, starts with `N` and is a single path component |
| `Variant.FileNameStem` | scripts/NozzleCreationv2.py:788-791 | the file name is a single path component whose stem is the default variant name and extension `.xml` |
| `Variant.Generate` | scripts/NozzleCreationv2.py:753-822 | defines the outcome: the refusal message, or the detectors rewritten with the merged modifications and the path of the variant; `Variant.GenerateOutcome` states when it succeeds |
| `Variant.GenerateVariantWithValidation` | scripts/NozzleCreationv2.py:753-822 | the method returns the outcome of the generation for the given file |
| `Variant.CheckConfiguration` | scripts/NozzleCreationv2.py:766-782 | the validation and fallback give the decision |
| `Variant.CombineModifications` | scripts/NozzleCreationv2.py:795-805 | the blackhole rewrite, the nozzle adjustment and their merge give the modifications |
| `Variant.TargetsHaveEntries` | scripts/NozzleCreationv2.py:795-805 | for a start up to 601 every target detector has entries among the modifications |
| `Variant.RewriteSucceeds` | scripts/NozzleCreationv2.py:646-671 | for a start up to 601 the file rewrite never fails, leaves other detectors alone and rewrites each target with its sorted entries |
| `Variant.GenerateOutcome` | scripts/NozzleCreationv2.py:753-822 | the variant succeeds exactly when the nozzle validation is valid or suggests a positive reduction; a refusal carries the validation message and "0.0000 cm"; a success writes the path and every detector as rewritten |
| `KillZoneSweep.RadiusSchedule` | scripts/NozzleCreation.py:10-13 | r stays in [1.78, 50], never grows, falls linearly and runs from 50 to 1.78 |
| `KillZoneSweep.FrontSchedule` | scripts/NozzleCreation.py:9-12 | the front moves 6 cm per step, from 6 at step 0 to 600 at step 99 |
| `KillZoneSweep.StepRadius` | scripts/NozzleCreation.py:10-13 | the inner radius at any step lies in [1.78, 50] |
| `KillZoneSweep.ZFront` | scripts/NozzleCreation.py:9-12 | the kill zone never begins before z = 6 |
| `KillZoneSweep.TipPlaneInverted` | scripts/NozzleCreation.py:84 | for the first 98 steps the nozzle's tip plane is written with rmin above its rmax 2.59223 |
| `KillZoneSweep.PlanesSorted` | scripts/NozzleCreation.py:18-24 | `zplanes_all` is listed by non-decreasing z |
| `KillZoneSweep.InitialComplete` | scripts/NozzleCreation.py:93 | the initial `rmax_dict` has a value for every plane name |
| `KillZoneSweep.MinRIsLookup` | scripts/NozzleCreation.py:135 | each plane's floor is `z_rmin_defaults` at the z of the first plane with its name |
| `KillZoneSweep.StartsAboveFloor` | scripts/NozzleCreation.py:25-30 | every plane's outer radius starts above its floor |
| `KillZoneSweep.Shrunk` | scripts/NozzleCreation.py:134-136 | the shrink keeps the dictionary's keys |
| `KillZoneSweep.ShrinkRmax` | scripts/NozzleCreation.py:133-136 | the in-place loop shrinks every entry by one step down to its floor |
| `KillZoneSweep.RmaxAfter` | scripts/NozzleCreation.py:93-136 | after any number of steps the dictionary still has every name |
| `KillZoneSweep.RmaxClosedForm` | scripts/NozzleCreation.py:133-136 | after k steps each rmax is max(floor, initial - k · r_step): never below its floor, never growing |
| `KillZoneSweep.ClampedClosedForm` | scripts/NozzleCreation.py:136 | repeated clamped subtraction is one clamped subtraction of k steps |
| `KillZoneSweep.PlaneLinesOfKept` | scripts/NozzleCreation.py:69-73 | the plane lines are exactly those of the planes at or beyond the front, in list order, with rmin from `z_rmin_defaults` and rmax from `rmax_dict` |
| `KillZoneSweep.CollectPlaneLines` | scripts/NozzleCreation.py:69-73 | the loop collects those lines |
| `KillZoneSweep.KillzoneBlock` | scripts/NozzleCreation.py:66-75 | one side's block: header, plane lines, footer, joined by newlines |
| `KillZoneSweep.MakeKillzone` | scripts/NozzleCreation.py:65-76 | the right block, a newline, then the left block |
| `KillZoneSweep.KillzoneText` | scripts/NozzleCreation.py:65-76 | defines the kill-zone text: the right block, a newline, the left block; `KillZoneSweep.PlaneLinesOfKept` and `KillZoneSweep.KillzoneAtStep` state which planes it lists |
| `KillZoneSweep.KeptIsSuffix` | scripts/NozzleCreation.py:69-70 | on a list sorted by z the kept planes are a suffix, and every dropped plane lies before the front |
| `KillZoneSweep.KillzoneAtStep` | scripts/NozzleCreation.py:69-70 | at every step between one and five planes are kept, always ending with the plane at 600 |
| `KillZoneSweep.KillzoneSigns` | scripts/NozzleCreation.py:67-73 | a right-side z text starts with a digit, a left-side one with `-` and a digit |
| `KillZoneSweep.MakeNozzle` | scripts/NozzleCreation.py:78-90 | defines the nozzle text: the right block, then the left block; `KillZoneSweep.NozzleSameRmin` states their zplanes |
| `KillZoneSweep.NozzleSameRmin` | scripts/NozzleCreation.py:78-90 | each side of the nozzle has five zplanes, all with the side's sign and the same inner radius |
| `KillZoneSweep.Patched` | scripts/NozzleCreation.py:128-129 | the patch keeps the number of lines |
| `KillZoneSweep.PatchInclude` | scripts/NozzleCreation.py:128-129 | the in-place patch of the line array is the patched list |
| `KillZoneSweep.PatchOnlyLine196` | scripts/NozzleCreation.py:126-131 | only index 196 changes, to the include line, and only when there are at least 197 lines |
| `KillZoneSweep.StepContent` | scripts/NozzleCreation.py:100-106 | a step's file is the template filled with the kill zone, the nozzle and the BCH blocks |
| `KillZoneSweep.WriteStep` | scripts/NozzleCreation.py:98-131 | one iteration writes that step's directory, file name, content and patched include file |
| `KillZoneSweep.PatchCopy` | scripts/NozzleCreation.py:126-131 | the copied include file's lines are patched |
| `KillZoneSweep.Sweep` | scripts/NozzleCreation.py:97-136 | the loop writes step 0 to 99 in order, with the outer radii shrunk once per earlier step |
| `KillZoneSweep.StepNames` | scripts/NozzleCreation.py:108-109 | the directory is the file name without `.xml`, and the file name starts with the step padded to three digits |
| `KillZoneSweep.StemShape` | scripts/NozzleCreation.py:108 | the stem is a non-empty single path component |
| `RadiusCalc.InterpolateRadius` | scripts/radius_calc.py:5-8 | fails with "z1 and z2 cannot be the same value" exactly when z1 == z2 |
| `RadiusCalc.InterpolateOnLine` | scripts/radius_calc.py:8 | the result lies on the line through the two points |
| `RadiusCalc.OnLineUnique` | scripts/radius_calc.py:8 | a value on that line at z is the result |
| `RadiusCalc.InterpolateAtEnds` | scripts/radius_calc.py:8 | r1 comes back at z1 and r2 at z2 |
| `RadiusCalc.InterpolateSymmetric` | scripts/radius_calc.py:8 | swapping the two points gives the same result |
| `RadiusCalc.InterpolateBetween` | scripts/radius_calc.py:1-8 | between z1 and z2 the result lies between r1 and r2 |
| `RadiusCalc.InterpolateFlat` | scripts/radius_calc.py:8 | equal radii give that radius everywhere |
| `RadiusCalc.Report` | scripts/radius_calc.py:26-43 | rmin (rmax) is computed exactly when both of its ends are given; delta R exactly when both are; the script raises exactly when a computed radius has equal z's |
| `RadiusCalc.ReportRadii` | scripts/radius_calc.py:29-38 | each stored radius is the interpolation of its own two ends |
| `RadiusCalc.DeltaIsInterpolatedThickness` | scripts/radius_calc.py:41-43 | delta R is the interpolation of the two end thicknesses |
| `ModdedRadiusCalc.ModdedRadii` | simulation/geometries/MuColl_10TeV_v0A_Modded_Nozzle/radius_calc.py:5-21 | fails exactly when z1 == z2; the radius is the interpolation and the second value is 0.4 less |
| `ModdedRadiusCalc.ReducedBetween` | simulation/geometries/MuColl_10TeV_v0A_Modded_Nozzle/radius_calc.py:1-21 | between z1 and z2 the reduced radius lies between r1 - 0.4 and r2 - 0.4, and equals them at the ends |
| `ZCalc.InterpolateZForThickness` | scripts/z_calc.py:5-18 | raises the no-match message exactly when the thickness is constant and differs from the target; says "all z" exactly when it is constant and equal |
| `ZCalc.ThicknessAtAnswer` | scripts/z_calc.py:7-17 | at the returned z the interpolated thickness is the target |
| `ZCalc.InverseOfInterpolation` | scripts/z_calc.py:17 | asking for the thickness interpolated at z gives back z, so the two helpers are inverses |
| `ZCalc.AnswerAtEnds` | scripts/z_calc.py:17 | the first thickness is found at z1 and the second at z2 |
| `ZCalc.AnswerBetween` | scripts/z_calc.py:17 | a target between the two thicknesses is found between z1 and z2 |
| `ZCalc.ScriptReportAsWritten` | scripts/z_calc.py:34-38 | as written the script prints an error both for the raised error and for the "all z" message |
| `ZCalc.ConstantThicknessHidden` | scripts/z_calc.py:12-38 | when the thickness is constant and equal to the target, the script prints a formatting error |
| `ZCalc.ScriptReport` | scripts/z_calc.py:34-38 | as intended, the script prints an error exactly when the helper raises |
| `ZCalc.ScriptReportCases` | scripts/z_calc.py:5-38 | as intended, the report gives exactly one of: the position (where the thickness is the target), "all z", or the no-match error |
| `SlcioAnalysis.ExtractDatasetName` | scripts/slcio_analyzer.py:47-59 | the dataset name never contains a separator |
| `SlcioAnalysis.NestedFileDataset` | scripts/slcio_analyzer.py:53-56 | a file in a directory belongs to the dataset named after that directory |
| `SlcioAnalysis.TopFileDataset` | scripts/slcio_analyzer.py:57-59 | a file at the top belongs to the dataset named after its stem, also when the stem starts with a dot (`.hidden.slcio` gives `.hidden`) |
| `SlcioAnalysis.TopFileWithoutExtension` | scripts/slcio_analyzer.py:57-59 | a file at the top with no extension, such as a hidden `.slcio`, is the dataset of its whole name |
| `SlcioAnalysis.Grouped` | scripts/slcio_analyzer.py:36-43 | grouping keeps every existing dataset and has one for the last file found |
| `SlcioAnalysis.GroupedContents` | scripts/slcio_analyzer.py:36-43 | a dataset exists exactly when it existed or a file of it was found; its list is the old list followed by its files in discovery order |
| `SlcioAnalysis.NamesTrackGroups` | scripts/slcio_analyzer.py:41-42 | new datasets are added after the old ones, each once |
| `SlcioAnalysis.GroupingKeepsEveryFile` | scripts/slcio_analyzer.py:36-43 | every found file lands in exactly one list and nothing else changes: the files of all lists are the old ones plus the found ones |
| `SlcioAnalysis.SlcioAnalyzer.constructor` | scripts/slcio_analyzer.py:9-21 | starts with the cap and no datasets |
| `SlcioAnalysis.SlcioAnalyzer.FindSlcioFiles` | scripts/slcio_analyzer.py:30-45 | the loop extends the datasets by the found files and returns them; earlier datasets stay |
| `SlcioAnalysis.SlcioAnalyzer.ProcessDataset` | scripts/slcio_analyzer.py:98-149 | the nested loops count the events read and the files opened as the capped count says |
| `SlcioAnalysis.ProcessedCapped` | scripts/slcio_analyzer.py:106-145 | the count is the total capped at a positive cap; every file is opened when the cap is not reached |
| `SlcioAnalysis.EventCountCapped` | scripts/slcio_analyzer.py:106-145 | with a positive cap the count is min(cap, total) and never exceeds the cap; without one it is the total; at most all files are opened |
| `SlcioAnalysis.NoFileAfterCap` | scripts/slcio_analyzer.py:144-145 | once the files read reach the cap, no later file is opened |
| `SlcioAnalysis.ReadEvents` | scripts/slcio_analyzer.py:114-140 | reading a file of n events adds at most n to the count, and never takes a count within a positive cap past it |
| `SlcioAnalysis.Processed` | scripts/slcio_analyzer.py:106-145 | the count never decreases, at most every file is opened, and a count within a positive cap stays within it |
| `SlcioAnalysis.ReadEventsCapped` | scripts/slcio_analyzer.py:114-140 | the count goes up by one per event read until a positive cap |

## Left out

- XML parsing and writing (ElementTree), folder creation, copying and the variant organizer are not modelled. A file is given as its list of detectors and their zplanes, and the written path is a string.
- HTCondor submission, the organizer's folder registration and logging are not modelled. They are I/O and do not change any returned value.
- Printed warnings are not modelled, including the missing-detectors warning of the file rewrite. They are output only.
- Binary floating point is not modelled. Radii are exact reals, and `round`, `:.Nf`, `str` and `float` are exact decimal functions. Behaviour that depends on float rounding, such as the planes at 99.99999999 and 100 collapsing, is therefore not captured.
- `float()` is modelled on the decimal grammar. It does not accept `inf`, `nan`, underscores or surrounding whitespace inside a product part.
- In `NozzleCreation.py`, `os.makedirs`, `shutil.copy2`, the directory listing and the reading and writing of files are not modelled. A step's output is its directory, file name, content and patched line list.
- In the LCIO analyzer, glob discovery and `os.path.relpath` are not modelled. The found files are given with their relative paths, and `os.sep` is taken to be `/`.
- In the LCIO analyzer, event reading, the MCParticle loop and the histograms are not modelled. A file is given as its number of events.
- The script bodies of `radius_calc.py` and `z_calc.py` use fixed inputs and print their results. The model takes the inputs as parameters and returns what the scripts print, as values.
- `Variant.GenerateOutcome`: stated for starts up to 601 cm. Beyond that, the left blackhole has no entries, and the file keeps its zplanes if they parse. `GeometryFile.DetectorWithoutEntriesUnchanged` covers that case on its own.
- `Variant.RewriteSucceeds`: stated for starts up to 601 cm, for the same reason.
- `BlackholeProperties.ModifyRecordsChanges`: stated for tables with one blackhole name per side. With two names on one side, the changes keyed by z alone can hold the other name's rmax.
- `Units.FormatUnits`: every value is taken as a float. In the program the base tables' whole numbers (z 6, 15, 100, 595 and their negatives, radii 42 and 43) are ints, they stay ints through the offset and its reversal, and `format_units` writes them without a decimal point ("595*cm"); the model writes "595.0*cm". `Units.FormatIntUnits` models the int case and `Units.WholeValueText` states the difference. Which later values are ints also depends on the types of `z_start` and the reduction (`max(0, ...)` returns the int 0), and the model does not track Python's int and float types.
- `Variant.Generate`: the zplanes it writes for whole-number planes read "595.0*cm", "15.0*cm", "6.0*cm" or "43.0*cm" where the program writes "595*cm", "15*cm", "6*cm" or "43*cm", because the model takes every value as a float (see `Units.FormatUnits` above).
- `Variant.GenerateVariantWithValidation`: returns the outcome of `Variant.Generate`, so it has the same ".0" difference for whole-number planes.
- `Variant.RewriteSucceeds`: the rewritten zplanes it describes have the same ".0" difference for whole-number planes.
- `Variant.GenerateOutcome`: the detectors it says a success writes have the same ".0" difference for whole-number planes.
- `GeometryFile.BuildZplanes`: writes its three unit texts with `Units.FormatUnits`, so whole numbers that are ints in the program get ".0".
- `GeometryFile.UpdateZplane`: writes the new radii with `Units.FormatUnits`, so a whole-number radius that is an int in the program gets ".0".
- `Text.StrRepr`: escapes the backslash, the quote, tab, newline, carriage return and the unprintable characters up to U+00FF as `repr` does. Unprintable characters above U+00FF, which `repr` writes as `\u` or `\U` escapes, are written as they are.
- `SlcioAnalysis.ExtractDatasetName`: its own contract says only that the name has no separator. The cases of the source are the lemmas `SlcioAnalysis.NestedFileDataset`, `SlcioAnalysis.TopFileDataset` and `SlcioAnalysis.TopFileWithoutExtension`.

## Findings

| source | as written | input that shows it | evidently intended | confidence | as-written member | corrected member |
|---|---|---|---|---|---|---|
| scripts/z_calc.py:34-38 | the helper's "All z between ..." message (a string) is formatted with `:.5f`, which raises a `ValueError` that the same `except` prints as an error | rmin1 = 1, rmax1 = 2, rmin2 = 0, rmax2 = 1, target 1: both thicknesses are 1 | print the message that every z has the target thickness | not executed | `ZCalc.ConstantThicknessHidden` | `ZCalc.ScriptReportCases` |
