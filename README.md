# FNTTools in Dafny

This is a model of the two commands of FNTTools, a command-line tool for AngelCode
`.fnt` bitmap fonts:

- `convert <format> <sources…> [--output <paths…>] [--force] [--overwrite]` loads each
  source font and saves it in the requested format (binary, text or XML). The output
  path is the matching `--output` entry, or else the source's file name in the working
  directory.
- `inspect <source> [--all] [--info] [--common] [--pages] [--characters] [--kerningpairs]`
  loads one font and dumps the selected blocks to the console, property by property.

Mutable things are classes:

- the console is a `Console` whose `lines` each `WriteLine` extends;
- the file system is a `FileSystem` that tracks the paths that exist and the saves made.

`Converter.Convert` and `Inspector.Inspect` are imperative methods that follow the
source's loop and branches. Each is proved to end in the state given by a pure
specification function (`ConvertSpec`, `InspectSpec`). The properties the tool promises
are lemmas about those functions.

Files:

| file | module | contents |
|---|---|---|
| `wrappers.dfy` | `Wrappers` | `Option` |
| `sequences.dfy` | `Sequences` | associativity of concatenation |
| `strings.dfy` | `Strings` | decimal rendering of integers, `Path.GetFileName` |
| `font.dfy` | `Font` | the loaded font document, the reflective record dump, the `(char)` cast and the `char.IsControl` / `char.IsWhiteSpace` tests |
| `environment.dfy` | `Environment` | the `Console` and `FileSystem` classes, and the codec's outcomes |
| `convert.dfy` | `Converter` | the convert command and its properties |
| `inspect.dfy` | `Inspector` | the inspect command and its properties |

The SharpFNT codec is not part of this model. Its outcomes are parameters:

- `Codec(loadFails, saveFails)` lists the source positions whose `BitmapFont.FromFile`
  or `Save` throws in convert;
- inspect takes `loaded: Option<Document>`, where `None` means `FromFile` threw;
- the platform's directory separators are a parameter `separators` of `FileName`.

An exception that escapes `Inspect` is modelled as the status `Threw`, together with
the lines written before it.

## Model

| member | source | states |
|---|---|---|
| Converter.Convert | FNTTools/Program.cs:58-115 | The method's console lines, exit code, final paths and saves are exactly those of `ConvertSpec` for the paths that existed before. |
| Converter.ConvertSource | FNTTools/Program.cs:74-111 | One pass of the loop body adds exactly one step's effects. It aborts exactly when the decision for source i is `Aborted`. Its effects are: the line (if any) for that decision, and the one save it makes (if any). |
| Converter.ConvertRejectsBadArguments | FNTTools/Program.cs:60-70 | With no sources, or an output count that is neither 0 nor the source count, the result is 1. Exactly one line is written, "No sources specified. Aborting." or "N out of M outputs specified. Aborting.". No file is saved and the file set is unchanged. |
| Converter.OutputPath | FNTTools/Program.cs:81 | The explicit `--output` entry for source i wins when there is one. Otherwise the path is the source's file name: a suffix of the source, free of separators, that is the whole source or follows its last separator. |
| Converter.Decide | FNTTools/Program.cs:76-111 | Source i is converted, to `OutputPath` i, exactly when it exists, the codec loads and saves it, and its output is free or `--overwrite` is given. Any other step aborts exactly when `--force` is absent and is skipped otherwise. Its problem is "missing source" exactly when the source does not exist. "output exists" means the source exists and loaded but the output is taken without `--overwrite`. "save failed" means the load and the overwrite guard passed. |
| Converter.OutputTakenNotice | FNTTools/Program.cs:83-93 | A source that exists and loads, but whose output is taken without `--overwrite`, writes only the "already exists … Skipping." (with `--force`) or "… Aborting." line, and creates and saves nothing. |
| Converter.ConvertOnlyWritesPermitted | FNTTools/Program.cs:76-95 | For all flags and codec outcomes, the only new paths are the outputs saved. Each save was permitted at the moment it was made: the source existed and loaded, the output is the resolved path and the requested format is used, the output was free or `--overwrite` was given, and the save succeeded. Sources are saved in increasing order, each at most once. |
| Converter.ConvertForced | FNTTools/Program.cs:72-114 | With `--force` no source aborts the batch: the exit code is 0 exactly when the arguments are valid. |
| Converter.ConvertForcedSavesEvery | FNTTools/Program.cs:83-105 | With `--force` a problem skips only its own source and the loop goes on. A source is saved to its resolved output in the requested format when it exists before the run and the codec loads and saves it, and either `--overwrite` is given or its output is a new path that no earlier source which might be saved resolves to. An earlier source might be saved when the codec does not fail on it and it exists before the run or is the output of a source before it. This condition is sufficient, not necessary. `ConvertOnlyWritesPermitted` gives the necessary condition, checked against the file set at the time of each save. |
| Converter.SavedMaySave | FNTTools/Program.cs:76-95 | Every source a consistent run has saved is one that might be saved, in the sense of `ConvertForcedSavesEvery`. |
| Converter.ConvertUnforced | FNTTools/Program.cs:83-111 | Without `--force`, the saves are sources 0..n-1 in order, and the exit code is 0 exactly when n is the number of sources (with no line written). Otherwise source n's decision is an abort. Its diagnostic ("not found", "already exists … Aborting." or "Failed to convert") is the only line, and nothing after it is touched. |
| Converter.ConvertAllConverted | FNTTools/Program.cs:72-114 | With `--overwrite`, when every source exists and the codec throws for none of them, the exit code is 0 and nothing is written. Every source k is saved, in order, to its resolved output in the requested format. |
| Converter.SameFileNameCollides | FNTTools/Program.cs:81-93 | Two sources with the same file name and no `--output`: the first save creates the second's output path. So the second is refused with "already exists": it aborts with 1 without `--force`, and is skipped with exit 0 under `--force`. |
| Converter.NoOverwriteWritesEachPathOnce | FNTTools/Program.cs:83-95 | Without `--overwrite`, no save, the first included, goes to a path that existed before the run, and no output path is saved twice. |
| Converter.ConvertWithOutputCase | FNTTools.Tests/ConvertTests.cs:16-25 | `convert xml TestFont.fnt --output ConvertTest.fnt` returns 0 and creates ConvertTest.fnt. |
| Converter.MissingSourceCase | FNTTools.Tests/ConvertTests.cs:28-35 | A missing source returns 1 and does not create its output, whatever the codec does. |
| Converter.NoOverwriteFailCase | FNTTools.Tests/ConvertTests.cs:48-54 | Converting a font onto itself without `--overwrite` returns 1 and saves nothing. |
| Converter.OverwriteCase | FNTTools.Tests/ConvertTests.cs:57-65 | With `--overwrite`, the same conversion returns 0 and saves over the source. |
| Strings.FileName | FNTTools/Program.cs:81 | `Path.GetFileName`: the result is a suffix of the path, holds no separator, and is the whole path or is preceded by a separator. |
| Strings.FileNameOfJoin | FNTTools/Program.cs:81 | Conversely, a separator-free name after a directory prefix is what `FileName` returns. |
| Strings.NatToString | FNTTools/Program.cs:68 | The decimal form of a count is nonempty, all digits, has no leading zero, and denotes the number. |
| Strings.IntToStringShape | FNTTools/Program.cs:184 | An integer's numeral starts with '-' exactly when it is negative. After the sign comes a nonempty run of decimal digits, with no leading zero, whose value is the magnitude. |
| Strings.IntToStringInjective | FNTTools/Program.cs:184 | Distinct ids print differently, so an "ID: n" line names one id. |
| Inspector.Inspect | FNTTools/Program.cs:142-209 | The method's status and console lines are exactly those of `InspectSpec`. |
| Inspector.InspectBlock | FNTTools/Program.cs:152-208 | One guarded section writes exactly its report's lines: nothing when unselected, else the header and its body, or only the header when the block is null and the dump throws. |
| Inspector.InspectObject | FNTTools/Program.cs:211-218 | Writes one "Name: value" line per property, in reflection order. |
| Inspector.InspectPages | FNTTools/Program.cs:169-174 | Writes each page's lines, one page after another in enumeration order. |
| Inspector.InspectCharacters | FNTTools/Program.cs:180-193 | Writes each character's lines in enumeration order. |
| Inspector.InspectKerningPairs | FNTTools/Program.cs:199-204 | Writes each kerning pair's lines in enumeration order. |
| Inspector.InspectPage | FNTTools/Program.cs:171-173 | Writes exactly one page's lines, `PageLines`. `PagesLayout` states what they are: "ID: id", "File: file", blank. |
| Inspector.InspectCharacter | FNTTools/Program.cs:182-192 | Writes exactly one character's lines, `CharacterLines`. `CharactersLayout` states what they are: the ID line, the glyph line exactly when the truncated code is neither a control nor white space, the properties, then a blank line. |
| Inspector.InspectKerningPair | FNTTools/Program.cs:201-203 | Writes exactly one pair's lines, `KerningLines`. `KerningLayout` states what they are: "First: a", "Second: b", "Amount: n", blank. |
| Inspector.InspectMissingSource | FNTTools/Program.cs:144-148 | A missing source exits with 1 and writes only the "was not found. Aborting." line (which ends in an extra newline). No block header is written. |
| Inspector.InspectExitCode | FNTTools/Program.cs:150-208 | With the source present, inspect never returns 1. It returns 0 exactly when the font loads and every selected block is non-null; otherwise an exception escapes. |
| Inspector.InspectThrowsAt | FNTTools/Program.cs:152-206 | When b is the first selected block that is null, an exception escapes right after b's header. The lines are the earlier sections followed by that header, which is the last line. |
| Inspector.InspectThrowsHeaders | FNTTools/Program.cs:152-206 | In that thrown report (for a well-formed font), each selected block up to b has its header exactly once, and no later block's header appears. |
| Inspector.InspectCompleteSucceeds | FNTTools.Tests/InspectTests.cs:15-21 | A loaded font with no null block exits with 0, whatever is selected. |
| Inspector.InspectHeaders | FNTTools/Program.cs:152-198 | For a well-formed font whose selected blocks are all non-null (unselected ones may be null), each block's header appears exactly once if the block is selected and never otherwise, and the exit code is 0. |
| Inspector.InspectOrder | FNTTools/Program.cs:152-206 | When every selected block is non-null, selected blocks appear in the fixed order Info, Common, Pages, Characters, Kerning Pairs. Each header stands at the end of all earlier sections. |
| Inspector.HeaderInjective | FNTTools/Program.cs:154-198 | The five headers are pairwise distinct. |
| Inspector.FieldLineNotHeader | FNTTools/Program.cs:216 | A "Name: value" line with an identifier name is never a block header. |
| Inspector.BodyNoHeader | FNTTools/Program.cs:155-205 | No line of a non-null block's dump is a block header (for a well-formed font). |
| Inspector.PagesLayout | FNTTools/Program.cs:169-174 | The pages block has three lines per page, in order: "ID: id", "File: file", blank. |
| Inspector.KerningLayout | FNTTools/Program.cs:199-204 | Each kerning pair gives four lines, in order: "First: a", "Second: b", "Amount: n", blank. |
| Inspector.KerningBlockLayout | FNTTools/Program.cs:196-206 | A selected, non-null kerning block has 4n+2 lines: the header, the pair lines, and one extra blank line at the end. |
| Inspector.CharactersLayout | FNTTools/Program.cs:180-192 | Character k of the characters block starts where the characters before it end, with its ID line. The "Character: g" line comes next exactly when the truncated code is neither a control nor white space, and the entry's extent (2 + g + property count lines) records which. Then come its properties and a blank line. |
| Inspector.CharacterIdsListed | FNTTools/Program.cs:180-184 | Every character's "ID: id" line appears in the characters block. |
| Inspector.CharOfTruncates | FNTTools/Program.cs:182 | `(char)id` keeps the low 16 bits of the 32-bit two's-complement id (so -1 gives U+FFFF). Ids 65536 apart give the same character, and ids below 65536 are unchanged. |
| Inspector.GlyphExamples | FNTTools/Program.cs:186-189 | Letters show their glyph, including a wrapped id. Line feed, space, no-break space and U+0085 do not. |
| Inspector.InspectAllCase | FNTTools.Tests/InspectTests.cs:15-21 | `inspect TestFont.fnt --all` on a font with one page, one character and one kerning pair exits with 0. Its console output is the exact list of lines. |

## Left out

- Command-line parsing and the `Run` entry point (FNTTools/Program.cs:19-56 and 117-140) are not modelled. The arguments arrive as the `ConvertArgs` and `InspectArgs` records.
- For that reason the `InvalidFormat` convert test is not modelled, because an unknown format is rejected by the parser. The same goes for the inspect tests that pass `-p`, `-c` or `-k` and for `InvalidKerningPair`: no such options are declared in the code.
- The SharpFNT codec is not part of this model: loading and saving are the `Codec` and `loaded` parameters. The model assumes a save that throws leaves no file behind.
- `InspectObject` uses reflection, so a record is modelled as its list of properties with each value's `ToString()` text. The properties of SharpFNT's `InfoBlock`, `CommonBlock` and `Character` are not enumerated; they are whatever list the document holds.
- `Font.PairRecord` assumes that SharpFNT's `KerningPair` exposes exactly the public properties `First` and then `Second`, in that order. That class is not part of this model, and `KerningLayout`, `KerningBlockLayout` and `InspectAllCase` rely on this list.
- `char.IsControl` and `char.IsWhiteSpace` are written out from the documented .NET character lists for the ranges they test.
- A Dafny `char` cannot hold a lone surrogate, so for ids whose low 16 bits are a surrogate the glyph line holds U+FFFD in place of the unpaired code unit.
- Output is a list of lines: `WriteLine()` adds an empty line, and the inspect "not found" message keeps its embedded extra newline. Console encoding, `CancellationToken` and the `IConsole` plumbing are not modelled.
- A null `Source` or `Output` array is modelled as an empty one, which the code treats the same way. A null entry inside `Output`, which makes `??` fall back to the file name, is not modelled.
- Integers are unbounded. The only fixed width modelled is the 16-bit `(char)` cast; `Int32` ids are not truncated otherwise.
- The integers' text uses the invariant-culture form (a leading '-'). Culture-specific negative signs are not modelled.
- Path handling is reduced to `Path.GetFileName` over a separator set, and the file system to a set of path strings. Relative and absolute paths naming the same file are different strings here.
- Where the documented behaviour of the tool differs from `Program.cs`, the model follows the code:
  - a selected null block makes `Inspect` throw after its header line; no default or empty block is substituted;
  - without `--force`, a missing source or an existing output ends the batch with 1, and it is not skipped;
  - `--force` is kept as the code has it;
  - a failed conversion prints only the fixed "Failed to convert bitmap font" line, with no exception detail.
  - for a control or white-space character no "Control" or "Whitespace" label is printed; the code only leaves out the "Character:" line.
- Converter.ConvertForcedSavesEvery: its condition is sufficient, not necessary. A source that exists only as an earlier source's output is saved under `--force` when the loop reaches it, but the lemma does not promise it. Such a source's output also counts as possibly taken by the earlier saves.
