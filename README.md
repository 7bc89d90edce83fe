# galaxy: a verified model of the Barnes–Hut simulator's discrete core

`galaxy` is a Barnes–Hut N-body simulator, mostly C++ with Python companion scripts. This project models its discrete, sequential parts and proves what they promise:

- **Oct-trees.** There are three generations: `csrc/treecode.*`, `csrc2/treecode.*` and the root `treecode.cpp`.
  - The model covers the bounding cube (`get_limits`), the node and its counted allocation, and `insert` with its Unused / Internal / External cases.
  - It also covers the octant choice, `_split_node`, `_pass_down`, `create`, and the visitor-driven traversal.
  - Each node's mass and first moments are covered too: `set_mass_and_centre`, `validate` and `accumulatePhysics`.
- **The tree verifier** of `csrc/tree-verifier.cpp`:
  - a once-only mark per particle;
  - a stack of 2×2×2 octant blocks;
  - `has_been_verified`.
- **The 2-D quad-tree of `geneva.cpp`:**
  - a body's descent through quadrants (`subdivide`, `intoNextQuadrant`, `resetToZerothQuadrant`);
  - `InternalNode` and its child slots;
  - the recursive `add`, and the loop that rebuilds the tree.
- **The bit-exact double codec.** `encode` and `decode` appear in four C++ copies: `utils.cpp`, `csrc2/utils.cpp`, `csrc/configuration.cpp` and `csrc2/configuration.cpp`. The model also covers the hexadecimal `deserialize` and the Python signed `encode`. A double is an opaque 64-bit pattern (`Bits64`).
- **Configuration text:**
  - `StringSplitter::split`;
  - the three readers: `csrc/configuration.cpp`, `csrc2/configuration.cpp`, and `restore_config` / `extract_particle` in `csrc0/configs.cpp`;
  - the two writers: `save_config`, and `save_configuration` / `Body.encode` in `scripts/configure.py`;
  - `iterate` over particles, pairs of particles and both;
  - round trips between writers and readers, including the cross-generation cases.
- **Small utilities:**
  - `ends_with`, `get_number`, `get_double` and `sqr`;
  - the two `Reporter`s (sequence numbers, countdown, zero-padded file names);
  - the Python `get_file_name`, `generate_pairs` and `get_n`;
  - the model factories, the zeroing gate, and the path-slash fix.

Where the source changes state in place, the model is imperative Dafny:
- classes for `TreeVerifier`, the geneva `Node` and `InternalNode`, the node's physics fields, the node census and the reporters;
- methods with loops for `get_limits`, `split`, `_get_line_count`, the readers, `extract_particle`, `get_n` and `generate_pairs`.

Each such method is proved against a specification function, and the properties are proved about that function. Tree coordinates are `real`s; they are only compared, halved and (in the physics) summed.

The model is organised in these modules:
- **Shared modules:**
  - `Wrappers`: `Option`, `Result` and the error kinds of the C++ exceptions;
  - `Numerals`: rendering, plus `stoull` / `stoi` / `atoi`;
  - `Codec`, `Strings`, `Bodies`, `Pairs` and `Utils`.
- **One module per reader or writer:** `ConfigCsrc`, `ConfigCsrc2`, `Configs0`, `ConfigureScript` and `RoundTrips`.
- **The oct-tree core:** `Octree`, `Limits`, `TreeCreate`, `Traversal`, `TreePhysics` and `TreeNodes`.
- **The generation-specific tree code:** `CsrcTree`, `Csrc2Tree` and `RootTree`.
- **The rest:** `TreeVerifier`, `Geneva`, `Reporting` / `ReporterCsrc` / `ReporterCsrc2`, `PyPaths` and `PlotOrbits`.

Where the code and its comments disagree, the model follows the code. Each such case is listed below under Findings. Where `csrc/treecode.cpp` and `csrc/treecode.hpp` have drifted apart, the model follows the `.cpp` bodies, with the enum values of the header.

## Model

| member | source | states |
|---|---|---|
| Codec.Encode | csrc2/utils.cpp:47-54 | the text is the unsigned decimal digits of the pattern, with no sign and no leading zero |
| Codec.Decode | csrc2/utils.cpp:64-68 | `stoull` of the text taken as the pattern; its errors propagate |
| Codec.DecodeEncode | utils.cpp:37-53 | decoding what `encode` wrote gives back the same 64-bit pattern |
| Codec.EncodeUnsigned | csrc2/utils.cpp:47-54 | `encode` writes only decimal digits, never a sign |
| Codec.DecodeRejectsNonNumeric | csrc/configuration.cpp:163-167 | text with no leading digit (after white space and a sign) makes `decode` fail with `invalid_argument` |
| Codec.DecodeTooLarge | csrc2/utils.cpp:64-68 | a magnitude of 2^64 or more is refused with `out_of_range` |
| Codec.ToSigned | scripts/configure.py:271-278 | the pattern read as a two's-complement 64-bit integer, in range, agreeing with the pattern below 2^63 |
| Codec.DecodePyEncode | scripts/configure.py:271-278 | the C++ `decode` of the Python signed decimal restores the unsigned pattern, the `-` being negated modulo 2^64 |
| Codec.PyEncodeNonNegative | scripts/configure.py:278 | the Python and C++ encoders write the same text exactly when the sign bit is clear |
| Codec.Deserialize | serialization.h:28-37 | the base-16 value of the text taken as the pattern, or the all-zero pattern of 0.0 when `stoull` throws |
| Codec.DeserializeRender | serialization.h:28-37 | every rendered hexadecimal pattern is read back exactly |
| Codec.DeserializePyHex | serialization.h:28-37 | `deserialize` inverts the Python hex encoder on patterns whose sign bit is clear |
| Codec.DeserializePyHexNegative | serialization.h:29-34 | a negative value's Python field starts with `x`, so `deserialize` falls back to 0.0 |
| Codec.DeserializeDigits | serialization.h:28-37 | every string of 1 to 16 hexadecimal digits is read as the number it denotes, as the accepted test vectors are |
| Numerals.Render | csrc2/utils.cpp:52 | the digits of `n` in the base, most significant first, none of them a leading zero |
| Numerals.SignedDecimalChars | scripts/configure.py:278 | `str` of an integer is an optional `-` followed by decimal digits |
| Numerals.ZeroPaddedValue | csrc/reporter.cpp:73 | `setw(10) << setfill('0')` text is at least 10 long and still denotes the sequence number |
| Numerals.ScanInteger | utils.cpp:50 | the front end of `strtoull`: white space, a sign, an optional `0x` in base 16, the maximal run of digits; none when no digit |
| Numerals.Stoull | utils.cpp:50 | `invalid_argument` without a digit, `out_of_range` above 2^64-1, a `-` negating modulo 2^64, and the count of characters consumed |
| Numerals.StoullInvalid | csrc/configuration.cpp:164 | `stoull` reports `invalid_argument` exactly when there is no digit to parse |
| Numerals.Stoi | csrc2/configuration.cpp:72 | `stoi` in base 10, `out_of_range` outside the `int` range |
| Numerals.Atoi | csrc0/configs.cpp:266 | `atoi` into an `int` is the parsed value, 0 when nothing can be parsed, and undefined behaviour outside INT_MIN..INT_MAX; it agrees with `stoi` wherever `stoi` succeeds and is undefined exactly where `stoi` is out of range |
| Numerals.ScanRender | csrc2/utils.cpp:52 | rendered digits are scanned back in full as the same non-negative number |
| Numerals.ScanNegativeDecimal | scripts/configure.py:278 | a minus sign before rendered digits is scanned as a negation |
| Numerals.StoullDecimal | csrc2/utils.cpp:64-68 | `stoull` inverts the decimal rendering of every 64-bit value, consuming all of it |
| Numerals.StoullSignedDecimal | scripts/configure.py:278 | `stoull` reads a signed decimal back as its two's-complement pattern |
| Numerals.StoiSignedDecimal | csrc2/configuration.cpp:72 | `stoi` reads back the decimal of every `int` |
| Numerals.AtoiSignedDecimal | csrc0/configs.cpp:266 | `atoi` reads back the decimal of every `int` |
| Numerals.AtoiTooLarge | csrc0/configs.cpp:266 | the decimal of an integer outside the `int` range is undefined behaviour of `atoi` |
| Strings.EqualFromBack | utils.cpp:120 | comparing from the back matches the suffix of `value` of the same length |
| Strings.EndsWith | csrc2/utils.cpp:126-129 | true iff `ending` is a suffix of `value`; false whenever `ending` is longer |
| Strings.EndsWithConcat | csrc2/utils.cpp:126-129 | every string ends with what is appended to it |
| Strings.FindFirstOf | csrc/configuration.cpp:177 | the first index at or after `from` holding a delimiter, or the end for `npos`; nothing between is a delimiter |
| Strings.FindFirstOfAt | csrc/configuration.cpp:177 | `find_first_of` from `from` stops at the first delimiter there |
| Strings.Fields | csrc/configuration.cpp:172-190 | the delimiter-separated pieces, empty ones included |
| Strings.FieldsAt | csrc/configuration.cpp:177-179 | each loop round cuts the field up to the next delimiter and hands on the rest |
| Strings.NonEmpty | csrc/configuration.cpp:178 | the fields with the empty ones dropped, in order |
| Strings.TokensAt | csrc/configuration.cpp:177-182 | one round of the loop: the field up to `pos`, then the tokens of the rest |
| Strings.Split | csrc/configuration.cpp:172-190 | the loop returns the fields with `keepEmpty`, and the non-empty fields without it |
| Strings.FieldsCount | csrc/configuration.cpp:172-190 | with `keepEmpty` there is one more token than delimiter characters |
| Strings.FieldsFree | csrc/configuration.cpp:172-190 | no token contains a delimiter |
| Strings.FieldsRejoin | csrc/configuration.cpp:172-190 | re-joining the tokens with the original delimiters reproduces the text |
| Strings.JoinFree | scripts/configure.py:54 | a line joined from delimiter-free tokens holds no delimiter but its separators |
| Strings.FieldsJoinWith | csrc/configuration.cpp:83 | splitting a line joined with a delimiter recovers the tokens |
| Strings.UnlinesSnoc | csrc0/configs.cpp:236 | writing one more line appends it and its newline |
| Strings.EofLines | csrc0/configs.cpp:253-255 | the pieces a `while (!eof) getline` loop reads, a final empty one included |
| Strings.EofLinesUnlines | csrc0/configs.cpp:253-255 | that loop reads a file written line by line as its lines plus one empty piece |
| Strings.GetlineLinesUnlines | csrc/configuration.cpp:80 | a `while (getline)` loop reads a file written line by line as exactly its lines |
| Bodies.ToFields | scripts/configure.py:53 | the seven fields in file order x, y, z, mass, vx, vy, vz |
| Bodies.OfFields | csrc/configuration.cpp:96-112 | fields 0-2 are the position, 3 the mass, 4-6 the velocity |
| Bodies.OfToFields | csrc/configuration.cpp:93-113 | reading a body's fields back gives the body |
| Bodies.Flatten | csrc/configuration.cpp:128-133 | the fields of all bodies, seven per body in order |
| Bodies.FlattenBlock | csrc/configuration.cpp:129-131 | block `k` of the flattened fields is body `k`'s fields |
| Bodies.DecodeFields | csrc/configuration.cpp:96-97 | each token decoded in turn; the first `stoull` failure decides the error |
| Bodies.DecodeBody | csrc2/configuration.cpp:98-115 | the 7-token decoding loop; reading past the last token is undefined |
| Bodies.DecodeRecord | csrc/configuration.cpp:96-112 | the C++ loop with its `switch` computes `DecodeBody` |
| Bodies.DecodeFieldsFails | csrc/configuration.cpp:97 | once a token fails to decode, every longer run of tokens fails with that error |
| Bodies.DecodeFieldsExact | csrc/configuration.cpp:97 | tokens each decoding to a value give exactly those values |
| Bodies.DecodeEncodedFields | csrc/configuration.cpp:96-112 | both writers' encodings decode back to the fields |
| ConfigCsrc.LineCount | csrc/configuration.cpp:40-58 | lines without `=` counted and `End` lines taken off; `logic_error` unless the last line starts with `End`; count plus 6 |
| ConfigCsrc.GetLineCount | csrc/configuration.cpp:40-58 | the counting loop computes `LineCount` |
| ConfigCsrc.TallyCountsBodyLines | csrc/configuration.cpp:40-58 | on a file of key lines, body lines and `End` lines without `=`, the counter is the number of body lines, and when the last line is `End` the count is that number plus 6 |
| ConfigCsrc.BodyLines | csrc/configuration.cpp:45-50 | the lines the count counts |
| ConfigCsrc.ReadLine | csrc/configuration.cpp:83-114 | a `Version` line stores its value; any other line needs 7 tokens (`logic_error`) and becomes particle `index` with id `index` |
| ConfigCsrc.ReadLines | csrc/configuration.cpp:80-116 | lines are read up to the first one starting with `End`; the first failure ends the loop |
| ConfigCsrc.ReadLinesStep | csrc/configuration.cpp:80-116 | a line that reads cleanly hands the rest of the file to the loop |
| ConfigCsrc.Empty | csrc/configuration.cpp:76 | `_n` slots, none filled |
| ConfigCsrc.Read | csrc/configuration.cpp:70-119 | `invalid_argument` when the file cannot be opened; otherwise the count, `_n` slots and the reading loop |
| ConfigCsrc.Load | csrc/configuration.cpp:70-119 | the constructor with its array of slots computes `Read` |
| ConfigCsrc.ReadInto | csrc/configuration.cpp:83-115 | one loop body that stores a body line's particle in `slots[index]` and changes nothing else |
| ConfigCsrc.ParamsParticles | csrc/configuration.cpp:125-134 | particle `k` reads `params[7k .. 7k+6]` in file order, with id `k` |
| ConfigCsrc.FromParams | csrc/configuration.cpp:125-134 | the test constructor's loop computes `ParamsParticles` |
| ConfigCsrc.ParamsFlatten | csrc/configuration.cpp:125-134 | parameters laid out as bodies' fields give those bodies, numbered in order |
| ConfigCsrc.ParamsFlattenAt | csrc/configuration.cpp:128-133 | particle `k` of the flattened bodies is body `k` with id `k` |
| ConfigCsrc2.GetLineCount | csrc2/configuration.cpp:37-46 | the count is the number of lines |
| ConfigCsrc2.ReadLine | csrc2/configuration.cpp:59-117 | lines 0-4 need the keys Version, iteration, theta, G, dt (`invalid_argument`); `stoi` for the iteration, `decode` for the doubles; line `k+5` fills slot `k` |
| ConfigCsrc2.ReadLines | csrc2/configuration.cpp:58-118 | lines are read up to the first whose first three characters are `End` |
| ConfigCsrc2.Empty | csrc2/configuration.cpp:53-54 | `_n` empty slots and an unset header |
| ConfigCsrc2.Read | csrc2/configuration.cpp:48-120 | `invalid_argument` when the file cannot be opened; otherwise `_n = lines - 6` slots and the reading loop |
| ConfigCsrc2.Load | csrc2/configuration.cpp:48-120 | the constructor with its `line_number` switch computes `Read` |
| ConfigCsrc2.HeaderLine | csrc2/configuration.cpp:62-93 | one pass of the loop body on lines 0-4, the switch's keyed cases, computes `ReadLine` |
| ConfigCsrc2.BodyLine | csrc2/configuration.cpp:94-114 | one pass of the loop body on a later line, the `default:` case, computes `ReadLine` and writes only slot `line_number - 5` |
| ConfigCsrc2.SingleCalls | csrc2/configuration.hpp:89-93 | one `visit(i, particles[i])` per index, in order |
| ConfigCsrc2.Iterate | csrc2/configuration.hpp:89-93 | the loop makes exactly the calls `SingleCalls` lists |
| ConfigCsrc2.SingleCallsOnce | csrc2/configuration.hpp:89-93 | each particle is visited exactly once, with its own index |
| ConfigCsrc2.PairCallsAsWritten | csrc2/configuration.hpp:98-102 | the pair calls as written, each passing `_particles[2]`; undefined past the end |
| ConfigCsrc2.IteratePairsAsWritten | csrc2/configuration.hpp:98-102 | the nested loop makes exactly the as-written pair calls, and reads past the end with two particles |
| ConfigCsrc2.RowAsWritten | csrc2/configuration.hpp:100-101 | the inner loop for one `i` appends that row's as-written calls, or reads past the end with two particles |
| ConfigCsrc2.PairCallsAsWrittenShape | csrc2/configuration.hpp:98-102 | with three particles or more, the as-written loop makes as many calls as the corrected one, call `k` handing over the first particle of the `k`-th pair `i < j` and `particles[2]` |
| ConfigCsrc2.IteratePairs | csrc2/configuration.hpp:98-102 | the corrected loop calls `visit_pair(particles[i], particles[j])` for the pairs `i < j`, in loop order |
| ConfigCsrc2.PairCallsFromVisits | csrc2/configuration.hpp:99-100 | the rows of the nested loop, concatenated, visit the upper pairs in order |
| ConfigCsrc2.PairCallsOnce | csrc2/configuration.hpp:95-102 | the corrected loop visits every unordered pair exactly once, n(n-1)/2 calls, in increasing order |
| ConfigCsrc2.PairCallsAsWrittenDiffer | csrc2/configuration.hpp:101 | as written, the first of three or more particles is paired with `particles[2]` where `particles[1]` is meant, and two particles read past the end |
| ConfigCsrc2.IterateCompound | csrc2/configuration.hpp:108-115 | all single visits, then the as-written pair calls of line 114, each passing `_particles[2]`; undefined behaviour with two particles |
| ConfigCsrc2.IterateCompoundCorrected | csrc2/configuration.hpp:108-115 | corrected: all single visits, then the pair calls `visit_pair(particles[i], particles[j])` for `i < j` |
| ConfigCsrc2.CompoundOrder | csrc2/configuration.hpp:104-115 | as written and corrected, every single visit precedes every pair visit |
| Configs0.AfterEquals | csrc0/configs.cpp:260 | the text after the first `=`, or the whole line when there is none (`npos + 1` wraps to 0) |
| Configs0.NextToken | csrc0/configs.cpp:322-324 | the token before the first comma and the rest; with no comma both are the whole line |
| Configs0.Cuts | csrc0/configs.cpp:321-355 | the tokens successive rounds of the loop cut from the line |
| Configs0.ExtractParticle | csrc0/configs.cpp:316-358 | the state loop decodes seven tokens in the order x, y, z, m, vx, vy, vz |
| Configs0.Restore | csrc0/configs.cpp:242-311 | `false` for a missing file; otherwise the state machine over the lines, true only after `End` followed by nothing but empty lines |
| Configs0.BodyLines | csrc0/configs.cpp:227-235 | one line of seven encoded fields per body, in order |
| Configs0.Header | csrc0/configs.cpp:222-226 | `Version`, `iteration`, then `theta`, `G` and `dt` encoded |
| Configs0.SavedLines | csrc0/configs.cpp:217-237 | the header, the body lines and `End` |
| Configs0.Saved | csrc0/configs.cpp:217-221 | `backup` copies an existing file to `name~`, then the file holds the new text |
| Configs0.WithSlash | csrc0/configs.cpp:134-135 | the path ends with `/`, one being appended only when missing |
| Configs0.WithSlashIdempotent | csrc0/configs.cpp:134-135 | fixing the path twice changes nothing more |
| Configs0.ShouldZeroCases | csrc0/configs.cpp:182-184 | `-z 0` never zeroes, `-z 1` only at iteration 0, `-z 2` always |
| Configs0.CreateFactory | csrc0/configs.cpp:163-172 | the Plummer factory for the Plummer model with its parameters, `logic_error` for any other |
| Configs0.Configuration.constructor | csrc0/configs.h:127-182 | the declared defaults: version 1.0, theta 0.5, G 1, dt 0.01, zeroing 2, path `./configs`, file `config.txt` |
| Configs0.Configuration.FixPath | csrc0/configs.cpp:134-135 | the path gets its slash and nothing else changes |
| Configs0.Configuration.SaveConfig | csrc0/configs.cpp:217-237 | the files after the save, the file name `path + config_file_name` and the text written |
| Configs0.Configuration.RestoreConfig | csrc0/configs.cpp:242-311 | the result, the iteration, theta, G, dt and particles are those of `Restore` |
| Configs0.Configuration.ReadLine | csrc0/configs.cpp:258-304 | one pass of the loop body, per state |
| Configs0.AfterEqualsKey | csrc0/configs.cpp:260 | for `key=value` with one `=`, the token is the value |
| Configs0.NextTokenJoin | csrc0/configs.cpp:322-324 | a comma-joined line splits into its first token and the rest |
| Configs0.CutsJoin | csrc0/configs.cpp:321-355 | the loop cuts a comma-joined line back into its tokens |
| Configs0.ExtractBodyLine | csrc0/configs.cpp:316-358 | `extract_particle` reads back the line `save_config` writes for a body |
| Configs0.ExtractRepeats | csrc0/configs.cpp:322-324 | a line with no comma fills all seven fields with the same value |
| Configs0.EncodeFree | csrc0/configs.cpp:233 | an encoded double holds no comma, no newline and no `=`, so it is one field of a body line |
| Configs0.BodyLineShape | csrc0/configs.cpp:289 | a body line starts with a digit, so is never taken for `End` |
| Configs0.StepBodyLine | csrc0/configs.cpp:288-293 | in `expect_body` a body line appends its body |
| Configs0.RestoreBodies | csrc0/configs.cpp:288-293 | in `expect_body` successive body lines append their bodies in order |
| Configs0.SavedLinesAreLines | csrc0/configs.cpp:222-236 | no saved line holds a newline, given a one-line version string |
| Configs0.HeaderAreLines | csrc0/configs.cpp:222-226 | no header line holds a newline |
| Configs0.StepIteration | csrc0/configs.cpp:264-269 | `expect_iteration` takes `atoi` of the text after `=`, for an `int` iteration |
| Configs0.StepIterationTooLarge | csrc0/configs.cpp:264-269 | an iteration line beyond the `int` range stops the restore with undefined behaviour |
| Configs0.StepTheta | csrc0/configs.cpp:270-275 | `expect_theta` decodes the text after `=` |
| Configs0.StepG | csrc0/configs.cpp:276-281 | `expect_g` decodes the text after `=` |
| Configs0.StepDt | csrc0/configs.cpp:282-287 | `expect_dt` decodes the text after `=` |
| Configs0.RestoreHeader | csrc0/configs.cpp:259-287 | the five header lines lead to `expect_body` with the iteration and the three parameters set |
| Configs0.RestoreSavedText | csrc0/configs.cpp:242-311 | restoring saved text returns true with its iteration, parameters and bodies |
| Configs0.RestoreEnd | csrc0/configs.cpp:288-306 | `End` then the final empty piece finish cleanly |
| Configs0.SaveThenRestore | csrc0/configs.cpp:217-311 | `restore_config` of the file `save_config` just wrote restores what it saved |
| Configs0.BackupKeepsPrevious | csrc0/configs.cpp:246-247 | after a save, restoring from the backup reads the previous file |
| ConfigureScript.FieldList | scripts/configure.py:53 | position, then mass, then velocity |
| ConfigureScript.FromBodyFields | scripts/configure.py:53 | a 3-D body lists x, y, z, mass, vx, vy, vz |
| ConfigureScript.PyEncodeFree | scripts/configure.py:278 | the Python encoding holds no delimiter of any reader and no newline |
| ConfigureScript.EncodeBodyFields | scripts/configure.py:49-54 | an encoded body splits back into one token per field, each decoding to its field; seven for a 3-D body |
| ConfigureScript.EncodeBodyShape | scripts/configure.py:49-54 | an encoded body line holds no newline and does not start with `End` |
| ConfigureScript.ZipSum | scripts/configure.py:81-82 | elementwise sums, as long as the shorter list |
| ConfigureScript.CreateWithOffset | scripts/configure.py:77-83 | the shifted position and velocity, the same mass |
| ConfigureScript.OffsetsCompose | scripts/configure.py:77-83 | two shifts add up to one by summed offsets |
| ConfigureScript.OffsetUndone | scripts/configure.py:77-83 | shifting back by the negated offsets restores the body |
| ConfigureScript.CreateConfigFactory | scripts/configure.py:88-101 | `'plummer'` gives the Plummer factory; any other name raises `RuntimeError` |
| ConfigureScript.EncodeLines | scripts/configure.py:217-218 | one encoded line per body, in order |
| ConfigureScript.ConfigurationLines | scripts/configure.py:214-219 | `Version=`, one line per body, `End` |
| ConfigureScript.SaveConfiguration | scripts/configure.py:204-221 | the output file holds exactly those lines, each with its newline; other files unchanged |
| ConfigureScript.GeneratePairs | scripts/configure.py:312-321 | the nested loop yields `(bodies[i], bodies[j])` for the lower pairs, in order |
| ConfigureScript.PairRow | scripts/configure.py:320-321 | the inner loop `for j in range(i)` extends the pairs of the rows before `i` by row `i` |
| ConfigureScript.GeneratedPairs | scripts/configure.py:312-321 | each pair `j < i` is yielded exactly once, by `i` then `j`: n(n-1)/2 pairs |
| Pairs.Lower | scripts/configure.py:319-321 | the pairs `j < i < n`, by `i` then `j` |
| Pairs.UpperPairs | csrc2/configuration.hpp:99-100 | the C++ loops make each pair `i < j < n` once, increasing, n(n-1)/2 of them |
| Pairs.LowerPairs | scripts/configure.py:319-321 | the Python loops make each pair `j < i < n` once, increasing, n(n-1)/2 of them |
| PlotOrbits.GetN | scripts/plot_orbits.py:102-111 | skip 1 and count n when `maxsamples <= 0`; otherwise the least power of two with `n // skip <= maxsamples`; count `n // skip` |
| PlotOrbits.HalvedQuotient | scripts/plot_orbits.py:109-110 | doubling the skip at least halves the quotient, so the loop ends |
| PlotOrbits.SampledIndicesExist | scripts/plot_orbits.py:119-120 | every sampled index `skip * t` for `t < count` names an existing file |
| PyPaths.RFind | scripts/configure.py:185 | the last index holding the character, or -1 |
| PyPaths.SplitExt | scripts/configure.py:185 | `splitext`: base and extension rejoin to the name, and the extension starts with its dot |
| PyPaths.Join | scripts/configure.py:191 | `join`: an absolute second part replaces the first, otherwise one `/` between |
| PyPaths.NoExtension | scripts/configure.py:185-191 | without an extension the default is used after the sequence number, under `figs` for `png` (so also scripts/plot_orbits.py:51-67) |
| PyPaths.ExplicitExtensionAsWritten | scripts/configure.py:185-191 | as written, an explicit `.e` gives `base..e`, never under `figs` |
| PyPaths.SplitExtExample | scripts/configure.py:185 | `splitext("orbits.png")` is `("orbits", ".png")` |
| PyPaths.ExplicitPngExample | scripts/configure.py:185-191 | `orbits.png` becomes `orbits..png`, outside `./figs` |
| PyPaths.IntendedKeepsName | scripts/configure.py:185-191 | the intended version keeps an explicit name, under `figs` for `.png` |
| Reporting.FileName | csrc/reporter.cpp:71-75 | path, base, the 10-wide zero-padded sequence, `.`, extension |
| Reporting.FileNameInjective | csrc2/reporter.cpp:28-32 | different sequence numbers give different names |
| ReporterCsrc.Tick | csrc/reporter.cpp:31-34 | the sequence always grows by one; a file is due iff the decremented countdown is at most 0, which then restarts at `frequency` |
| ReporterCsrc.RunPhase | csrc/reporter.cpp:32-34 | after `q·frequency + r` reports the sequence is the call count and the countdown `frequency - r` |
| ReporterCsrc.WritesEvery | csrc/reporter.hpp:39-42 | report `q·frequency + r` writes iff `r == 0`, so files are numbered frequency, 2·frequency, … |
| ReporterCsrc.SkipsWithinCycle | csrc/reporter.cpp:33 | reports within a cycle write nothing |
| ReporterCsrc.WritesAtCycleEnd | csrc/reporter.cpp:33-34 | the last report of each cycle writes, named with its sequence number |
| ReporterCsrc.WritesAlways | csrc/reporter.cpp:33 | with `frequency <= 0` every report writes |
| ReporterCsrc.Reporter.constructor | csrc/reporter.hpp:57-60 | defaults `galaxy`, `configs/`, `csv`, `kill`, frequency 1; sequence 0 and countdown `frequency` |
| ReporterCsrc.Reporter.Report | csrc/reporter.cpp:31-46 | counters advance as `Tick` says; a due file is named after the new sequence; an unopenable file is `logic_error` |
| ReporterCsrc2.WrittenConsecutive | csrc2/reporter.cpp:37-48 | written files are numbered from the start consecutively, one per successful open |
| ReporterCsrc2.WrittenNamesDistinct | csrc2/reporter.cpp:28-32 | the names of a run of reports are pairwise different |
| ReporterCsrc2.Reporter.constructor | csrc2/reporter.hpp:38-39 | defaults `foo`, `csv`, `configs/`; sequence 0 |
| ReporterCsrc2.Reporter.Report | csrc2/reporter.cpp:37-50 | writes the file named after the current sequence, which grows only then; `logic_error` with the sequence unchanged on failure |
| ReporterCsrc2.Reporter.ReportAll | csrc2/reporter.cpp:37-50 | a run of reports writes the names of `Written`, in order |
| RoundTrips.KeyValueFields | csrc/configuration.cpp:83 | `key=value` splits into key and value |
| RoundTrips.TallyHeader | csrc/configuration.cpp:44-51 | key lines add nothing to the count |
| RoundTrips.TallyBodies | csrc/configuration.cpp:44-51 | each body line counts once |
| RoundTrips.TallyFile | csrc/configuration.cpp:40-58 | header, body lines and `End` count as the body lines |
| RoundTrips.CsrcReadsVersion | csrc/configuration.cpp:85-86 | a `Version=` line stores the version |
| RoundTrips.CsrcReadsPyBody | csrc/configuration.cpp:88-114 | a Python body line becomes the next particle |
| RoundTrips.PyBodyTokens | scripts/configure.py:49-54 | a Python body line has seven tokens, the first no key, decoding to the body |
| RoundTrips.CsrcReadsPyBodies | csrc/configuration.cpp:80-116 | the body lines, then `End`, fill the remaining slots in order |
| RoundTrips.PyLineCount | csrc/configuration.cpp:40-58 | a Python file counts as its bodies |
| RoundTrips.PythonToCsrc | scripts/configure.py:204-221 | the csrc reader loads what `save_configuration` writes: version, and particle `k` with id `k` for each body |
| RoundTrips.Csrc2ReadsVersion | csrc2/configuration.cpp:64-69 | line 0 `Version=` stores the version |
| RoundTrips.Csrc2RejectsPyBody | csrc2/configuration.cpp:70-75 | a Python body line is not the `iteration` line |
| RoundTrips.PythonRejectedByCsrc2 | csrc2/configuration.cpp:53-75 | the csrc2 reader rejects every file `save_configuration` writes |
| RoundTrips.BodyLineCounted | csrc/configuration.cpp:45-50 | a `save_config` body line holds no `=` and is no `End` line |
| RoundTrips.SavedLineCount | csrc2/configuration.cpp:37-46 | a `save_config` file has its bodies plus 6 lines |
| RoundTrips.BodyLineTokens | csrc2/configuration.cpp:94-115 | a `save_config` body line's tokens decode to the body |
| RoundTrips.Csrc2ReadsIteration | csrc2/configuration.cpp:70-75 | `iteration=` is read with `stoi` |
| RoundTrips.Csrc2ReadsDouble | csrc2/configuration.cpp:76-93 | lines 2-4 decode into theta, G and dt |
| RoundTrips.Csrc2ReadsBody | csrc2/configuration.cpp:94-115 | line `5 + k` fills slot `k` |
| RoundTrips.Csrc2ReadsBodies | csrc2/configuration.cpp:58-118 | the body lines, then `End`, fill the slots in order |
| RoundTrips.Csrc2ReadsHeader | csrc2/configuration.cpp:63-93 | the header lines fill the header fields and leave the slots |
| RoundTrips.SavedToCsrc2 | csrc0/configs.cpp:217-237 | the csrc2 reader loads what `save_config` writes: every header field and every body |
| RoundTrips.SavedRejectedByCsrc | csrc/configuration.cpp:88-92 | the csrc reader rejects a `save_config` file: the `iteration` line has 2 tokens |
| RoundTrips.CsrcRejectsIteration | csrc/configuration.cpp:85-92 | the `iteration` line is neither a version line nor a body |
| Utils.GetNumber | csrc2/utils.cpp:155-167 | the value iff `stoi` consumed everything and `low < value < high`, else `out_of_range`; `stoi` errors propagate |
| Utils.GetNumberDefault | csrc2/utils.hpp:93 | with the defaults, an accepted value lies strictly between 0 and `INT_MAX` |
| Utils.GetNumberDefaultDecimal | csrc2/utils.hpp:93 | with the defaults, the decimal of an `int` is accepted exactly when it is strictly between 0 and `INT_MAX`, and read back unchanged |
| Utils.GetNumberDecimal | csrc2/utils.cpp:155-167 | the decimal of an `int` is accepted iff strictly within the bounds, and returned unchanged |
| Utils.GetNumberTrailing | csrc2/utils.cpp:159 | text after the number is refused |
| Utils.GetDouble | csrc2/utils.cpp:136-148 | the same full-consumption and strict-range rule for reals |
| Utils.Sqr | utils.cpp:123 | non-negative, and the same for `x` and `-x` |
| Utils.SqrComparesMagnitudes | utils.cpp:123 | `sqr(x) < sqr(y)` exactly when the magnitude of `x` is below that of `y`, so squared quantities may stand in for the distances and sides the callers compare |
| Octree.RefinedBoundsMeet | csrc/treecode.hpp:250-255 | the halves meet at the mean and cover the interval |
| Octree.OctantBijection | csrc/treecode.hpp:212-216 | both octant forms agree, and on bits they are a bijection onto 0..7 |
| Octree.Bit | csrc/treecode.cpp:130-132 | 1 iff the coordinate is strictly above the mean |
| Octree.Octant | csrc/treecode.cpp:124-134 | `4i+2j+k` of the strict comparisons, below 8 |
| Octree.ChildContains | csrc2/treecode.cpp:169-176 | a point of the box lies in the child box of its octant |
| Octree.ChildSides | csrc2/treecode.cpp:183-220 | every child side is half the parent's |
| Octree.TypeCode | csrc/treecode.hpp:114-117 | Internal -2, Unused -1, External its particle index |
| Octree.WellFormedOctal | csrc/treecode.hpp:42 | every Internal node of a well-formed tree has exactly 8 children |
| Octree.NodeCount | csrc/treecode.cpp:168-184 | node count is `1 + 8·#internal` |
| Octree.NotTooCloseDistinct | csrc/treecode.cpp:111 | particles passing the proximity test are distinct |
| Octree.DistinctFromIncumbent | csrc/treecode.cpp:109-116 | the new particle differs from the incumbent |
| Octree.SplitChildren | csrc2/treecode.cpp:183-220 | eight Unused children over the halved boxes |
| Octree.SplitWellFormed | csrc2/treecode.cpp:183-220 | a fresh split is well formed |
| Octree.PassDown | csrc/treecode.cpp:141-159 | split, then both into one child recursively or each into its own |
| Octree.PassDownHolds | csrc/treecode.cpp:141-159 | both particles end up once each in the tree |
| Octree.Insert | csrc/treecode.cpp:91-117 | the range check, then the Unused / Internal / External cases |
| Octree.InsertIntoExternal | csrc/treecode.cpp:109-116 | the proximity test, then `_pass_down` |
| Octree.InsertHolds | csrc/treecode.cpp:91-117 | a successful insert adds the new particle once and keeps every other |
| Octree.InsertFailsIff | csrc/treecode.cpp:97-115 | `logic_error` exactly when out of the node's range, or too close to the incumbent its octants lead to |
| Octree.LeafStored | csrc/treecode.cpp:106-115 | the External node the octants lead to holds a particle of the tree, in a box no wider than the root's |
| Octree.InsertUnchecked | treecode.cpp:81-93 | without checks insert cannot throw |
| Octree.InsertIntoUnused | csrc/treecode.cpp:103-105 | an Unused node becomes External with that index |
| Octree.InsertSplits | csrc/treecode.cpp:109-116 | an External node becomes Internal over the same box |
| Octree.InsertForwards | csrc/treecode.cpp:106-108 | inside an Internal node only the chosen octant's child changes |
| TreeCreate.NextHolds | csrc2/treecode.cpp:102-103 | one more inserted particle extends the invariant |
| TreeCreate.Create | csrc2/treecode.cpp:94-105 | the loop inserts 0..n-1 in order; on success each particle sits once in an External node; with every particle in the root box, a throw comes from the proximity test and names two particles closer than `epsilon` times the root's side |
| TreeCreate.InsertRejectedClose | csrc/treecode.cpp:97-115 | when the particle lies in the root box, a throw of `insert` is the proximity test's against an earlier particle, closer than `epsilon` times the root's side |
| Limits.LeastIsMinimum | csrc/treecode.cpp:49-55 | the running minimum is at most every coordinate and is one of them |
| Limits.GreatestIsMaximum | csrc/treecode.cpp:49-55 | the running maximum is at least every coordinate and is one of them |
| Limits.Coords | csrc/treecode.cpp:51-55 | every coordinate in loop order, three per particle |
| Limits.Column | csrc2/treecode.cpp:70-81 | one axis of every particle, in order |
| Limits.LeastOfColumns | csrc2/treecode.cpp:83-84 | the overall minimum is the least of the per-axis minima |
| Limits.GreatestOfColumns | csrc2/treecode.cpp:83-84 | the overall maximum is the greatest of the per-axis maxima |
| Limits.Widening | csrc/treecode.cpp:57-65 | widening moves each end outwards, strictly unless zero |
| Limits.CubeHolds | csrc/treecode.cpp:35 | an interval holding every coordinate gives a cube holding the particles |
| Limits.AxisLimits | csrc2/treecode.cpp:64-81 | the per-axis loop computes the per-axis extremes |
| CsrcTree.GetLimits | csrc/treecode.cpp:48-68 | the widened extremes of all coordinates; every particle in the cube |
| CsrcTree.LimitsContain | csrc/treecode.cpp:48-68 | every coordinate lies between the widened ends |
| CsrcTree.PositiveSide | csrc/treecode.cpp:57-65 | the side is positive iff some coordinate is not zero |
| CsrcTree.Create | csrc/treecode.cpp:32-41 | a throw is the proximity test's: two particles lie closer than `epsilon` times the cube's side; on success each particle is in one External node |
| Csrc2Tree.InsertChecks | csrc2/treecode.cpp:114-120 | proximity always, range with runtime checks |
| Csrc2Tree.GetLimits | csrc2/treecode.cpp:63-89 | the widened cube is csrc's, the same on all three axes |
| Csrc2Tree.Create | csrc2/treecode.cpp:94-105 | over that cube, with or without the range check, a throw means two particles closer than `epsilon` times the side; on success each particle is in one External node |
| RootTree.GetLimits | treecode.cpp:41-62 | the un-widened cube, holding every particle, tight |
| RootTree.Attained | treecode.cpp:41-62 | the extremes are attained coordinates |
| RootTree.Create | treecode.cpp:67-74 | for distinct positions each particle sits in one External node |
| RootTree.Truncate | treecode.cpp:189 | truncation toward zero |
| RootTree.LightBodyLost | treecode.cpp:187-193 | a 0.5-mass body contributes nothing to the first moment |
| RootTree.IntendedAgrees | treecode.cpp:187-193 | the intended step agrees with csrc and csrc2 |
| RootTree.WholeMassAgrees | treecode.cpp:189 | as written agrees for whole-number masses |
| TreeNodes.Census.constructor | csrc/treecode.cpp:27 | no node has been allocated yet: the count starts at 0 |
| TreeNodes.Census.NewNode | csrc/treecode.cpp:75-83 | a new node is Unused over the given box, and the count of live nodes grows by exactly one |
| TreeNodes.Census.SplitNode | csrc/treecode.cpp:168-184 | `_split_node` creates the eight Unused children over the halved boxes, and the count grows by eight |
| TreeNodes.Census.SplitRow | csrc/treecode.cpp:178-182 | the innermost loop over `k` fills children `4i+2j` and `4i+2j+1` over their halved boxes, and the count grows by two |
| TreeNodes.Census.Destroy | csrc/treecode.cpp:227-234 | the destructor frees the node and, recursively, its children: the count drops by the subtree's node count |
| TreePhysics.AccumulatedSums | csrc2/treecode.cpp:250-255 | from a new node's zeroed fields, accumulating the children leaves their total mass and their first moments |
| TreePhysics.AccumulateCommutes | csrc2/treecode.cpp:250-255 | the order in which two children are accumulated does not change the result |
| TreePhysics.NodePhysics.constructor | csrc/treecode.cpp:75-77 | a new node has mass 0 and centre (0, 0, 0) |
| TreePhysics.NodePhysics.SetMassAndCentre | csrc2/treecode.hpp:159-167 | `logic_error` exactly when the centre is outside the node's box on some axis, nothing being changed then; otherwise mass and centre are stored |
| TreePhysics.NodePhysics.AccumulatePhysics | csrc/treecode.cpp:217-222 | the node's mass grows by the child's, and each coordinate field by the child's mass times that coordinate |
| TreePhysics.Validate | csrc2/treecode.hpp:186-196 | `logic_error` exactly when some coordinate of the centre lies outside the box |
| Traversal.Traverse | csrc/treecode.cpp:189-211 | the recursive method with its loop over the children returns the visitor state and the continue flag that the recursive `Walk` does |
| Traversal.WalkVisitsPreorder | csrc2/treecode.cpp:225-244 | with a visitor that never stops, every node is visited exactly once, in preorder, and the walk continues |
| Traversal.PreorderCount | csrc/treecode.cpp:189-211 | the preorder of a tree lists each of its nodes once: its length is the node count |
| Traversal.WalkDepartures | treecode.cpp:173-182 | depart is called once for every Internal node (csrc, csrc2) or for every node (root generation), after its children |
| Traversal.WalkStopsIff | csrc2/treecode.cpp:225-244 | the walk returns false exactly when some node it reaches is answered with Stop |
| TreeVerifier.AsWrittenInverted | csrc/tree-verifier.cpp:64-74 | as written, `get_index` gives each axis the index of the other half: the child's bit flipped |
| TreeVerifier.IndexOfChild | csrc/tree-verifier.cpp:64-74 | corrected, each axis gets the child's own bit, given a box at least twice the tolerance wide |
| TreeVerifier.LowerChildMisplaced | csrc/tree-verifier.cpp:64-74 | concretely, for the box [0,2]³ and its child 0, axis 0: 1 as written, 0 as intended |
| TreeVerifier.AsWrittenNeedsWidth | csrc/tree-verifier.cpp:68-74 | as written, a box with no width on an axis places none of its children on that axis: `logic_error` |
| TreeVerifier.NarrowHalvesCollide | csrc/tree-verifier.cpp:68-74 | for a box 1e-6 wide on x, the corrected test gives both x-halves index 0, while as written they get 1 and 0 |
| TreeVerifier.OctantOfChild | csrc/tree-verifier.cpp:81-87 | as written, `accumulate` gives child `o` of a box of positive width the flag of octant `7 - o`, and corrected the flag of octant `o`; either way distinct children get distinct flags |
| TreeVerifier.PositiveResolvable | csrc/tree-verifier.cpp:68-74 | as written, every split of a well-formed tree whose box has positive width can be resolved, since each split halves the widths |
| TreeVerifier.WalkVerifies | csrc/tree-verifier.cpp:44-100 | with `_get_index` as written or corrected, on a well-formed, resolvable subtree whose particles occur once and are unmarked, the walk never fails, keeps the stack it was given and marks exactly those particles |
| TreeVerifier.ChildrenVerify | csrc/tree-verifier.cpp:81-100 | for either indexing, the loop over children `i..7` marks each child's flag (octant `7 - o` as written) in the open block, completing it, and all the particles below them |
| TreeVerifier.ChildrenClean | csrc/tree-verifier.cpp:81-100 | for either indexing, a failure-free children loop met every particle of children `i..7` once, each unmarked when met, and marked them |
| TreeVerifier.VerifierAccepts | csrc/tree-verifier.cpp:105-111 | for either indexing, traversing a resolvable tree that `create` built with the verifier ends with `has_been_verified` true |
| TreeVerifier.VerifierAcceptsCreated | csrc/tree-verifier.cpp:44-111 | the verifier as written accepts every tree `create` builds over a box of positive width on each axis |
| TreeVerifier.WalkClean | csrc/tree-verifier.cpp:44-100 | conversely, for either indexing, a walk that ends without failure met every particle of the subtree once, each unmarked when met, and marked them |
| TreeVerifier.VerifierSound | csrc/tree-verifier.cpp:105-111 | for either indexing, if `has_been_verified` is true after the walk, the tree holds each of the particles 0..n-1 exactly once and no other index |
| TreeVerifier.TreeVerifier.constructor | csrc/tree-verifier.cpp:33-37 | n particles, none verified; empty stack; no failure |
| TreeVerifier.TreeVerifier.Visit | csrc/tree-verifier.cpp:44-62 | the visit of an External node marks its particle, failing on one already marked or out of range; an Internal node pushes a fresh block |
| TreeVerifier.TreeVerifier.Accumulate | csrc/tree-verifier.cpp:68-87 | with `_get_index` as written, the child's octant is marked in the block on top, failing when it cannot be resolved or is already marked |
| TreeVerifier.TreeVerifier.Depart | csrc/tree-verifier.cpp:94-100 | the top block is popped, failing unless all eight octants were marked |
| TreeVerifier.TreeVerifier.HasBeenVerified | csrc/tree-verifier.cpp:105-111 | a recorded failure is passed on; false when some particle is unmarked; an assertion failure when blocks remain on the stack; otherwise true |
| Geneva.Split | geneva.cpp:123-134 | `subdivide` on one coordinate: the bit says whether it is at least 0.5, and bit and doubled remainder give back the coordinate, still in [0, 1) |
| Geneva.Descend | geneva.cpp:83-86 | `intoNextQuadrant`: the side halves and the quadrant is `2·bit(x) + bit(y)` below 4, the position staying in the unit square |
| Geneva.Zeroth | geneva.cpp:88-91 | `resetToZerothQuadrant`: side 1, and positions in the unit square stay there |
| Geneva.Node.constructor | geneva.cpp:48-53 | a new node has side 1 and relative position (0, 0) |
| Geneva.Node.Subdivide | geneva.cpp:123-134 | the chosen coordinate is split as `Split` says and the other is unchanged |
| Geneva.Node.IntoNextQuadrant | geneva.cpp:83-86 | the node's cell and the returned quadrant are those of `Descend` |
| Geneva.Node.ResetToZerothQuadrant | geneva.cpp:88-91 | the node's cell becomes that of `Zeroth` |
| Geneva.Absorb | geneva.cpp:257-266 | `addMassCom`: the mass and mass-times-position grow by exactly the other node's |
| Geneva.AbsorbCommutes | geneva.cpp:257-266 | absorbing two nodes in either order gives the same totals, and absorbing into nothing gives the node's own |
| Geneva.SetSlot | geneva.cpp:269-272 | `setChild` succeeds exactly when the slot exists and is empty, filling only that slot |
| Geneva.ExtractSlot | geneva.cpp:278-284 | `extractChild` returns the slot's child and empties only that slot |
| Geneva.ExtractThenSet | geneva.cpp:269-284 | extracting a child and setting it back restores the slots |
| Geneva.SetThenExtract | geneva.cpp:269-284 | setting a child into an empty slot and extracting it gives back the child and the original slots |
| Geneva.InternalNode.constructor | geneva.cpp:205-220 | the new internal node takes over the end node's cell, mass and mass-times-position, with four empty child slots and no cached inverse mass |
| Geneva.InternalNode.AddMassCom | geneva.cpp:257-266 | the totals absorb the other node's and the cached inverse mass is invalidated |
| Geneva.InternalNode.SetChild | geneva.cpp:269-272 | the slots become `SetSlot`'s; an occupied slot is an assertion failure with nothing changed |
| Geneva.InternalNode.ExtractChild | geneva.cpp:278-284 | the child and the slots are `ExtractSlot`'s |
| Geneva.AddMassCom | geneva.cpp:168-171 | on an end node `addMassCom` is an assertion failure; on an internal node it absorbs the other node |
| Geneva.SetChild | geneva.cpp:173-176 | on an end node `setChild` is an assertion failure; on an internal node it sets an empty slot |
| Geneva.ExtractChild | geneva.cpp:183-186 | on an end node `extractChild` is an assertion failure; on an internal node it extracts the slot |
| Geneva.HostLighter | geneva.cpp:325-328 | the recursive `add` goes into a child of the host node, which weighs less than the node: the recursion ends |
| Geneva.AddNeverAborts | geneva.cpp:295-328 | on a tree of internal nodes with four slots none of the `assert(false)` paths of `add` is reached, and the result is such a tree again |
| Geneva.AddStep | geneva.cpp:309-328 | into a node at least `smallest_quadrant` wide, the body goes into the host's quadrant `Descend` picks, the host absorbing its mass |
| Geneva.AddResidual | geneva.cpp:300-306 | into no node the body goes as it is; a node narrower than `smallest_quadrant` is returned unchanged, the body being dropped |
| Geneva.AddTotals | geneva.cpp:321-323 | above the smallest quadrant, the result's mass and mass-times-position are the node's plus the body's |
| Geneva.AddLevelled | geneva.cpp:295-328 | added at the root's level, every node stays at the depth its side says |
| Geneva.AddPlaced | geneva.cpp:295-328 | a body in the unit square keeps every relative position in [0, 1)² |
| Geneva.AddKeepsBodies | geneva.cpp:295-328 | every other body is kept, the new one is added at most once, and exactly once into an empty slot |
| Geneva.BuildTree | geneva.cpp:448-452 | the loop adding each body to the root gives a tree of four-slot nodes, levelled; its totals are all bodies' totals; no body occurs more often than it was given; and positions in the plane stay placed |

## Left out

- Trees (`Node` of the three treecode generations, `Quad` of `geneva.cpp`) are values. `insert`, `_split_node`, `_pass_down` and geneva's `add` rewire child pointers in place; the model rebuilds the tree instead, so aliasing and in-place update of the tree are not captured. The node census (`TreeNodes.Census`) keeps the allocation count that the pointers would carry.
- The geneva destructor: it frees internal nodes and never bodies. The model has no heap deallocation to state this about.
- `getChild` of geneva is a plain array read. On an end node it is the same assertion failure as the other three virtual member functions modelled.
- `InternalNode::getPos` and the lazily computed inverse mass: floating-point division. Only the cache's invalidation by `addMassCom` is recorded.
- `accelerationOn`, `verlet`, `advance`, and the physics and integrators of every generation: floating-point dynamics, outside this model.
- The double-dispatch of the tree visitor (`visit` → `visit_internal` / `visit_external`) is taken as given: `TreeVerifier.VisitStep` is what the two together do.
- TreeVerifier.VerifierAccepts: requires every Internal box to be wide enough for the chosen `_get_index` (`Resolvable`). As written, that is a positive width on each axis: with none, both tests of `_get_index` fail and it throws (`AsWrittenNeedsWidth`). `VerifierAcceptsCreated` derives it from a root box of positive width. Corrected, it is a width of at least twice the tolerance 1e-6, below which both halves get index 0 (`NarrowHalvesCollide`).
- TreeCreate.Create: requires every particle in the root box unless the range check is made, and distinct positions unless the proximity test is made in a box of positive side. Otherwise `insert` recurses without end in the source.
- RootTree.Create: requires distinct positions, since the root generation makes neither check and `_pass_down` of two coincident particles never ends.
- CsrcTree.Create and Csrc2Tree.Create: require some coordinate other than zero, or distinct positions. With every coordinate zero the widened cube has side 0, and the termination argument for `insert` then needs distinct positions.
- `verify_within_bounding_box` of the verifier is not part of this model.
- The literal test vectors in the source tests (hexadecimal deserialisation, node counts 9, 17 and 33) are not evaluated one by one. `Codec.DeserializeDigits` and `Octree.NodeCount` state the general facts they are instances of.
- Doubles are reals in the tree code, and opaque 64-bit patterns in the codec. Rounding, NaN and infinities are not modelled.
- csrc2's header declares `get_limits` with a different signature from the one its `.cpp` defines; the model follows the `.cpp`.
- TreePhysics.NodePhysics.AccumulatePhysics: requires `other != this`. A node accumulating itself would read its fields after writing them, which the source never does.
- The status enum `csrc/treecode.hpp:85-88` has no `Stop`, though `csrc/treecode.cpp:191` uses it; the model takes the full enum of `csrc2/treecode.hpp:41-45`.
- `TreeVerifier::depart` is declared `void` (`csrc/tree-verifier.cpp:94`), while the visitor's `depart` returns `bool` (`csrc/treecode.hpp:108`). The model's `DepartStep` returns true after its checks, which is what the visitor's default `depart` returns.
- `get_side` is `Octree.Side`, a definition without a contract of its own. The default `epsilon=0.0001` of `get_limits` is `Limits.EPSILON`.
- The csrc2 configuration getters (`csrc2/configuration.hpp:78-84`) are the fields of the `ConfigCsrc2` datatype.
- File I/O is a parameter: whether a file opens, and its text. The killfile check, Plummer initial conditions, the command line, plotting, XML output and concurrency are not modelled.
- Utils.GetDouble: the decimal-to-double conversion of `stod` is a parameter. Only the full-consumption and range checks around it are modelled.

## Findings

| source | as written | input that shows it | evidently intended | confidence | as-written member | corrected member |
|---|---|---|---|---|---|---|
| treecode.cpp:189 | the child's mass is converted to `int` before it weights the child's position | a body of mass 0.5 at x = 1 adds 0 to the first moment instead of 0.5 | weight by the mass as a double, as csrc and csrc2 do | high, not executed | RootTree.LightBodyLost | RootTree.IntendedAgrees |
| csrc/tree-verifier.cpp:64-74 | `_get_index` tests `abs(a - b)` for truth, i.e. for the ends being different, and ignores `tolerance`; every bit is flipped, so `accumulate` marks octant `7 - o` for child `o`, which is still a bijection, and correct trees still verify | the box [0,2]³ with its child 0, axis 0: index 1 instead of 0 | test that the ends agree within `tolerance` | high, not executed | TreeVerifier.LowerChildMisplaced | TreeVerifier.IndexOfChild |
| csrc2/configuration.hpp:101, 114 | `visit_pair(_particles[i], _particles[2])`, in `iterate(PairVisitor&)` and again in `iterate(CompoundVisitor&)` | three particles: the first call pairs particles 0 and 2, not 0 and 1; with two particles it reads past the end | `visit_pair(_particles[i], _particles[j])` | high, not executed | ConfigCsrc2.PairCallsAsWrittenDiffer | ConfigCsrc2.PairCallsOnce |
| scripts/configure.py:185-191 | `f'{base}.{ext}'` with `ext` from `splitext`, which keeps its dot; and `ext == 'png'` compares against the dotted extension | `get_file_name("orbits.png")` gives `orbits..png`, outside `./figs` | strip the dot from an explicit extension | high, not executed | PyPaths.ExplicitPngExample | PyPaths.IntendedKeepsName |
