# MediaScript interpreter core, modelled in Dafny

MediaScript is a line-oriented scripting language for media editing. A script
loads or generates media, registers each under a friendly name, rewrites them
with filters (invert, flip, rotate, overlay, convert, ...) and finally
declares an output with `render`. The interpreter `parse` runs a script inside
a fresh temporary directory. It keeps:

- a registry of `{name, file}` entries;
- a variable table;
- a list of attachments (the outputs).

At the end it copies the outputs back to the caller's directory.

This project models that interpreter as pure functions over an immutable
session, and proves what it does line by line and over whole scripts. It also
models the greedy word wrapper `wrap_text_smart` used to lay out text images.

Modules:

- `Common` (common.dfy): `Option`, `Result` and the exceptions that can
  escape `parse`.
- `Text` (text.dfy): Python's string splitting.
  - `str.split()` is `Tokens`.
  - `str.split(maxsplit=n)` is `SplitMax`.
  - `str.split(c)` is `SplitOn`.
  - `str.splitlines()` is `SplitLines`.
  - Python's whitespace and line-boundary character sets are included.
- `Paths` (paths.dfy): `os.path.basename`, `isabs`, `join` and
  `splitext(...)[1]` on POSIX, and the interpreter's `resolve_path`.
- `Schema` (schema.dfy): command descriptors, `resolve_alias`, and the
  descriptor lookup.
- `Registry` (registry.dfy): `get_media_by_name`, and the `convert` update
  of every same-named entry.
- `Workspace` (workspace.dfy): the temporary directory as a map from file name
  to opaque contents. It has `rename_new_and_delete_old` and `shutil.copy2`
  within the directory.
- `Evaluator` (evaluator.dfy): script values, and the host collaborators that
  are fixed for a run:
  - Python's `eval` over the `math` names;
  - whether `float(text)` parses;
  - `urlparse(url).path`;
  - the caller's directory.

  It also has the "evaluate or pass the text through" wrapper
  `evaluate_expression`.
- `Interpreter` (interpreter.dfy):
  - the line classifier;
  - one handler per command;
  - the loop `RunFrom`, which stops at `break` or at an escaping exception;
  - attachment defaulting;
  - the copy-out `Deliver`;
  - `Parse`.

  Everything the outside world does during one line is a `World` value
  supplied per line:
  - whether the transcoder, download or copy succeeded;
  - the clock stamp used in generated names;
  - the file contents written;
  - the probed metadata value.
- `InterpreterFacts` (facts.dfy): invariants of one line and of the loop,
  halting, rejection of unknown words, and what a run delivers.
- `TextWrap` (wrap.dfy): `wrap_text_smart`, with the font's measure as a
  parameter `width: string -> int`.

Some behaviours of the code are easy to overlook, and the model keeps them:

- A transform whose medium is not registered raises out of `parse`
  (for example `invert`, MediaScript/parser/parse.py:266-269).
- `tti` catches nothing, so its missing-argument error escapes
  (MediaScript/parser/parse.py:250-253).
- `load` registers its entry even when the download failed
  (MediaScript/parser/parse.py:229-233). The downloader reports failure
  through its return value, and that value is ignored.
- `render` without a label raises an index error, because the label is read
  as the third field (MediaScript/parser/parse.py:758-760).
- `convert` retargets every entry with the name, not only the first
  (MediaScript/parser/parse.py:362-364).
- `clone` under a new name containing `/` registers nothing: the copy's
  destination lies in a directory that does not exist, and the error is
  caught (MediaScript/parser/parse.py:294-303).

The `explode` handler (MediaScript/parser/parse.py:493-513) binds its
strength variable only when the line gives no strength, and then uses the
default. That variable belongs to the whole `parse` call, so the binding
survives to later lines. A line with a strength that converts to a number
reuses the value an earlier strength-less `explode` bound. When no earlier
line bound it, the filter text reads an unbound variable and the handler
raises `NameError` (`UnboundLocalError` is a subclass of it). The session's
`explodeBound` flag records the binding.

## Model

| member | source | states |
|---|---|---|
| Text.Tokens | MediaScript/parser/parse.py:195 | `line.split()`: every word is non-empty and contains no whitespace; which words they are is fixed by Text.TokensSqueeze |
| Text.TokensSqueeze | MediaScript/parser/parse.py:195 | the words joined by single spaces are the line with leading and trailing whitespace dropped and every inner whitespace run squeezed to one space, computed independently character by character |
| Text.BlankIffNoTokens | MediaScript/parser/parse.py:193-195 | a line has no words exactly when it is whitespace-only, so every line that is not skipped has a command word |
| Text.SplitMax | MediaScript/parser/parse.py:202-203 | `line.split(maxsplit=n)`: at most n+1 fields, each non-empty and starting with a non-space; all but the last contain no whitespace |
| Text.SplitMaxAgreesWithTokens | MediaScript/parser/parse.py:195-203 | with at most n words, the fields are the words. Otherwise there are exactly n+1 fields: the first n are the first n words, and the last holds exactly the remaining words |
| Text.SplitOn | MediaScript/parser/text_gen.py:17 | `s.split(c)`: no piece contains c, and joining the pieces with c gives s back |
| Text.SplitOnJoin | MediaScript/parser/text_gen.py:17 | the converse round trip: splitting a c-join of c-free pieces gives the pieces back |
| Text.SplitLines | MediaScript/parser/parse.py:192 | `splitlines()`: no line contains a line boundary, and a non-empty script has at least one line |
| Text.SplitLinesRoundTrip | MediaScript/parser/parse.py:192 | when `\n` is the script's only line boundary, the lines joined with `\n`, followed by a `\n` exactly when the script ends with one, are the script |
| Paths.Basename | MediaScript/parser/parse.py:224-225 | `os.path.basename`: a `/`-free suffix of the path that is either the whole path or preceded by `/` |
| Paths.ResolvePath | MediaScript/parser/parse.py:187-191 | an absolute path is kept. A relative path gives the caller's directory, at most one `/`, then the path, so the result starts with the directory and ends with the path; it is absolute when the directory is. The basename never changes |
| Paths.BasenameOfJoin | MediaScript/parser/parse.py:773 | joining a directory and a name keeps the name's basename, so each output keeps its file's basename |
| Paths.Extension | MediaScript/parser/parse.py:294 | `splitext(p)[1]`: non-empty exactly when some `.` in the last component follows a character that is not a `.`. It is then the suffix of p from the component's last `.`: it starts with `.` and has no other `.` and no `/` |
| Paths.LastPieceIsBasename | MediaScript/parser/parse.py:345 | `mime.split('/')[-1]` is the text after the last `/` |
| Schema.ResolveAlias | MediaScript/parser/parse.py:172-180 | the result is the input or a command name. A word nobody answers to comes back unchanged. Otherwise the result is the name of the first command, in schema order, whose name or aliases contain the word |
| Schema.ResolvedIsNameIffAnswered | MediaScript/parser/parse.py:172-180 | the resolved word is a command name exactly when some command answers to the word |
| Schema.FindCommand | MediaScript/parser/parse.py:201 | found exactly when the name is among the command names, and then it is the first descriptor in schema order with that name |
| Registry.Lookup | MediaScript/parser/parse.py:168-171 | nothing exactly when no entry has the name; otherwise the file of the first entry with the name |
| Registry.Retarget | MediaScript/parser/parse.py:362-364 | same length and names; every entry with the name gets the new file; the other entries are unchanged |
| Registry.LookupAfterAppend | MediaScript/parser/parse.py:298-299 | appending never hides an existing name; only a new name becomes visible |
| Registry.LookupAfterRetarget | MediaScript/parser/parse.py:359-364 | after a retarget the name resolves to the new file and every other name resolves as before |
| Workspace.RenameOver | MediaScript/parser/parse.py:181-186 | with both files present, the old name holds the produced contents and the produced name is gone. With the old file missing, nothing changes. With only the old file present, it is gone. Every other file is untouched |
| Workspace.CopyWithin | MediaScript/parser/parse.py:296-297 | the copy succeeds exactly when the source exists, differs from the destination, and the destination has no `/` (the directory is flat). It then adds the destination with the source's contents and keeps every other file |
| Evaluator.Evaluate | MediaScript/parser/parse.py:96-107 | when the evaluator returns a value that value is the result, and when it raises the result is the expression text itself; the wrapper never fails |
| Evaluator.FloatFault | MediaScript/parser/parse.py:256-257 | `float(v)`: a number converts unless it is too large for a double (OverflowError); text converts exactly when it parses, else ValueError; anything else is a TypeError |
| Interpreter.Classify | MediaScript/parser/parse.py:192-203 | skipped exactly when blank or `#` in column 0. Otherwise the alias-resolved first word is either rejected as not a command name, or gives the first descriptor with that name. Its two readings of the line are the words and the at-most-arity split, with at most as many fields as words |
| Interpreter.RunTool | MediaScript/parser/parse.py:274-281 | registry, variables and outputs are untouched. On success the input file holds the tool's output and the produced name is gone. On failure nothing changes, and the status is break or continue as the handler chooses |
| Interpreter.ExecSet | MediaScript/parser/parse.py:204-209 | the variable now maps to the evaluation of the remaining words joined by single spaces, and other variables are unchanged; too few words is an index error |
| Interpreter.ExecGet | MediaScript/parser/parse.py:210-216 | an unregistered medium leaves the variables unchanged; a registered one stores the probed value in the target variable |
| Interpreter.ExecLoad | MediaScript/parser/parse.py:217-235 | never stops the loop. With a URL whose path parses, exactly one entry is appended, whether or not the download succeeded. Its file is the URL path's basename, or `video_<stamp>.mp4` when that is empty. Its name defaults to the file |
| Interpreter.ExecLoadFile | MediaScript/parser/parse.py:236-249 | never stops the loop. A successful copy appends `loaded_<stamp>_<basename>` under the given name, which defaults to the basename. A failed copy changes nothing |
| Interpreter.ExecTti | MediaScript/parser/parse.py:250-264 | fewer than two fields raises the missing-argument error. The line continues exactly when six fields are present and size and bounds convert to numbers. It then appends `tti_<name>_<stamp>.png`. A raise changes nothing |
| Interpreter.ExecClone | MediaScript/parser/parse.py:282-303 | an unregistered original raises. Otherwise the line never stops the loop. It appends exactly one entry under the new name exactly when the original's file exists and the copy's name differs from it and contains no `/`; otherwise nothing changes. The copy holds the original's contents, and existing entries are untouched |
| Interpreter.ExtensionFor | MediaScript/parser/parse.py:334-347 | the seven listed MIME types map to their extensions; any other type maps to `.` plus the text after its last `/` |
| Interpreter.ExecConvert | MediaScript/parser/parse.py:328-366 | an unregistered medium raises. A failed run continues with nothing changed. Success retargets every entry with the name to `conv_<stamp><ext>` |
| Interpreter.ExecOverlay | MediaScript/parser/parse.py:368-398 | fewer than five words is an index error. An unregistered base raises `MediaNotFound` naming it, otherwise an unregistered top raises `MediaNotFound` naming that. The registry is never changed, and a failed run continues rather than breaking. On success the base's file holds the composite and `overlay_<stamp>.mp4` is gone |
| Interpreter.ExecRotate | MediaScript/parser/parse.py:399-422 | the checks come in source order: a missing medium or angle field is an index error; an angle that does not convert raises its conversion fault; missing crop and colour fields are an index error; an unregistered medium raises `MediaNotFound`. It continues exactly when all pass. The registry is never changed, and a failed run continues. On success the medium's file holds the rotated output and `rotate_<stamp>.mp4` is gone |
| Interpreter.ExecMix | MediaScript/parser/parse.py:304-327 | fewer than three fields is an index error. An unregistered first medium raises `MediaNotFound` naming it, then an unregistered second one does the same, then `join` without its layout field is an index error. The registry is never changed, and a failed run breaks. On success the first medium's file holds the mix and `aputmix_<file>` is gone |
| Interpreter.ExecRender | MediaScript/parser/parse.py:758-761 | appends exactly one attachment, keeping the earlier ones, and breaks. Its file is the medium's registered file, or nothing when the medium is unregistered. Its label is the third field, falling back to the command word when that field is empty. Too few fields is an index error |
| Interpreter.OperandFault | MediaScript/parser/parse.py:440-513 | numeric operands raise the conversion fault of the evaluated value. `hueshifthsv` also fails when the colour table cannot be made. `explode` without a strength never faults; with one it raises the conversion fault, or `NameError` when converting succeeds and no earlier line bound the default |
| Interpreter.ExecRewrite | MediaScript/parser/parse.py:265-281 | single-input filters never change the registry. They raise exactly when the medium is missing or the operand faults, and break exactly when the tool fails. On success the medium's file holds the output and the temporary name is gone. Only a strength-less `explode` that gets past its checks binds the default strength, which stays bound |
| Interpreter.Chosen | MediaScript/parser/parse.py:762-766 | the declared outputs when there are any; otherwise exactly one output, the first registered medium under its own name, or none when nothing is registered |
| Interpreter.Deliver | MediaScript/parser/parse.py:771-777 | succeeds exactly when every output's file exists. It then gives the same length, order and names, each file being the caller's directory joined with the basename. Otherwise it fails with the first bad output's type or not-found error |
| InterpreterFacts.AbsentIffUnregistered | MediaScript/parser/parse.py:168-171 | in a registry whose files are non-empty, "not found" means exactly that no entry has the name |
| InterpreterFacts.UnknownWordIsRejected | MediaScript/parser/parse.py:196-200 | a line is rejected exactly when no command answers to its first word, and the error names that word |
| InterpreterFacts.ExecuteKeeps | MediaScript/parser/parse.py:204-761 | every handler keeps the invariants. The registry only grows, keeping names and order. A raise leaves the session untouched. Outputs change only on break, by one. Files stay non-empty |
| InterpreterFacts.StepKeeps | MediaScript/parser/parse.py:192-203 | one script line keeps the same invariants |
| InterpreterFacts.RunKeeps | MediaScript/parser/parse.py:192-761 | the loop keeps them. In particular, a loop that was never left declares no output and at most one output is ever declared |
| InterpreterFacts.HaltIgnoresRest | MediaScript/parser/parse.py:192-200 | after a line breaks or raises, appending lines to the script changes nothing |
| InterpreterFacts.RunComposes | MediaScript/parser/parse.py:192 | a prefix that runs to its end hands its session to the rest of the script |
| InterpreterFacts.RaisedLineEndsParse | MediaScript/parser/parse.py:199-200 | a line that raises makes `parse` fail with that exception, and nothing after it runs |
| InterpreterFacts.RunOutputs | MediaScript/parser/parse.py:763-777 | a run that raises fails with that exception. Delivery gives at most one output. A run that reaches the end declares nothing. A run that does not raise and declared nothing, including one a failed transcoder run ended, delivers the first registered medium under its name, or nothing |
| InterpreterFacts.ConvertRetargets | MediaScript/parser/parse.py:359-364 | after a successful convert the name resolves to the new file and other names are unaffected |
| InterpreterFacts.CloneNeverShadows | MediaScript/parser/parse.py:298-299 | a clone never changes what any registered name resolves to; only a new name becomes visible, resolving to the copy |
| InterpreterFacts.ExplodeStrengthNeedsBinding | MediaScript/parser/parse.py:493-513 | an `explode` on a registered medium whose strength converts raises exactly when no earlier line bound the default, and the error is `NameError` |
| InterpreterFacts.ExplodeDefaultBinds | MediaScript/parser/parse.py:493-513 | a strength-less `explode` on a registered medium binds the default, and a later `explode` whose strength converts then runs |
| InterpreterFacts.SetLastWriteWins | MediaScript/parser/parse.py:204-209 | of two `set`s of one variable, the second value is kept |
| InterpreterFacts.RenderLabelIsThirdField | MediaScript/parser/parse.py:758-760 | the third field of a command line is never empty, so the label's fallback to the command word never applies |
| TextWrap.Pack | MediaScript/parser/text_gen.py:21-31 | the lines hold the words in order, and none is empty. Each word after a line's first was added while the line fit. A line is closed only when the next word does not fit |
| TextWrap.WrapShape | MediaScript/parser/text_gen.py:15-33 | the lines, flattened, are exactly `text.split(' ')`; there are between one line and one line per word; each line is a single word or within the bound |
| TextWrap.WrapIsGreedy | MediaScript/parser/text_gen.py:21-28 | the wrapping satisfies the greedy packing predicate for the text's words |
| TextWrap.GreedyIsUnique | MediaScript/parser/text_gen.py:21-28 | two greedy packings of the same words are equal |
| TextWrap.WrapIsTheGreedyPacking | MediaScript/parser/text_gen.py:15-33 | any greedy packing of the text's words is the wrapping |
| TextWrap.WrapLines | MediaScript/parser/text_gen.py:30-33 | for text without `\n`, splitting the output at `\n` gives exactly the packed lines |
| TextWrap.WrapRoundTrip | MediaScript/parser/text_gen.py:17-33 | for text without `\n`, turning the output's breaks back into spaces gives the text |

## Left out

- Subprocesses and the network are left out: the transcoder, the colour-table
  generator, the metadata probe, the downloader and the playback after the
  run. Their outcomes are the per-line `World` fields.
- Playback with `playoutput` (MediaScript/parser/parse.py:779-790) is left
  out. `Parse` models a call without it. With it, a player that cannot be
  started raises out of `parse` after the copy-out.
- The metadata probe's own failures are left out
  (MediaScript/parser/parse.py:108-135, called at 215, 480 and 498). A probe
  that cannot be started, or whose output is not JSON, raises out of `get`,
  `swirl` and `explode`. The model's probe always answers with
  `World.probed`.
- The meaning of `eval` over the `math` names and all floating-point
  arithmetic are left out. The evaluator, `float` parsing of text, and
  whether `float` of a number overflows are host parameters. Rotation angles, brightness clamps and the `geq` filter strings
  are opaque, and filter text never reaches the modelled state.
- The clock is left out: `int(time.time())` is the per-line `World.stamp`
  string.
- The temporary directory's creation, the `chdir` and the `rmtree` in
  `finally` are left out. Each `Parse` starts from an empty store, and the
  store is dropped afterwards whatever happens. Files the interpreter never
  names are not modelled.
- Loading the command schema from JSON is left out; the schema is a parameter.
  The helper functions `get_commands` and `commandlength`
  (MediaScript/parser/parse.py:799-846) are not part of this model.
- The second `volume` branch (MediaScript/parser/parse.py:700-717) can never
  be reached, and the handler table has a single `volume` entry.
- `get_font_path` and `generate_text` (PIL and the filesystem) are left out.
  `tti` assumes the text image is written; a failure inside `generate_text`
  is not modelled.
- The colour-table file written by `hueshifthsv` is not put in the store.
- Console output (`print`) is left out.
- Exception messages are replaced by a structured fault. `overlay` reports the
  first missing medium instead of both names.
- File contents are opaque `Blob` identities. Whether a tool run succeeds on a
  given input is decided by the `World`, not by the input's existence.
- Interpreter.ExecMix: the value of `join`'s layout field (vertical or
  horizontal stacking) is not modelled, only its presence.
- Text.SplitMax: the last field's inner whitespace is stated only through its
  words (Text.SplitMaxAgreesWithTokens), not character by character.
- TextWrap.WrapRoundTrip: stated only for text without `\n`. A text that
  already contains `\n` cannot be told apart from a wrapped one.
- Text.SplitLinesRoundTrip: stated only for scripts whose only line boundary
  is `\n`. The other boundaries (`\r`, `\r\n`, `\v`, `\f`, `\x1c` to `\x1e`,
  `\x85`, `\u2028` and `\u2029`) are recognised by Text.SplitLines, but a
  `\n` join cannot restore which boundary stood where.
