/** The interpreter loop of `parse`: each script line is classified, resolved
    against the schema and executed over an explicit session (registry,
    variables, attachments, temporary directory); after the loop the
    attachment list is defaulted and copied back to the caller's directory.
    Everything the loop asks of the outside world for one line (the
    transcoder's and downloader's success, the clock, the metadata probe) is
    a `World` value supplied per line. */
module Interpreter {
  import opened Common
  import opened Text
  import opened Paths
  import opened Schema
  import opened Registry
  import opened Workspace
  import opened Evaluator

  /** A declared output: its working file (nothing when `render` named an
      unregistered medium) and its label. */
  datatype Attachment = Attachment(file: Option<string>, name: string)

  /** An output after it has been copied to the caller's directory. */
  datatype Delivered = Delivered(file: string, name: string)

  /** The state one `parse` call threads through its lines. `explodeBound`
      records whether `explode`'s default strength has been bound: the
      handler's local variable is set only when a line gives no strength, and
      it keeps its value for the rest of the loop. */
  datatype Session = Session(
    medias: seq<Media>,
    variables: map<string, Value>,
    attachments: seq<Attachment>,
    store: Store,
    explodeBound: bool)

  /** Nothing registered, no variables, no outputs, an empty temporary
      directory, and no `explode` strength bound yet. */
  const Initial := Session([], map[], [], map[], false)

  /** What the outside world does while one line runs. */
  datatype World = World(
    stamp: string,    // `int(time.time())` in decimal, used in generated file names
    succeeded: bool,  // the line's transcoder run, download or outside copy succeeded
    output: Blob,     // what that collaborator wrote
    hueOk: bool,      // the colour-table generator of `hueshifthsv` succeeded
    probed: Value)    // what the metadata probe reported for `get`

  /** How a line ends: go on, leave the loop (`break`), or an exception escapes. */
  datatype Status = Continue | Break | Raised(error: Exception)

  datatype Next = Next(session: Session, status: Status)

  /** The dispatcher's view of one line. */
  datatype Line =
    | Skip
    | Unknown(name: string)
    | Call(command: Command, parts: seq<string>, params: seq<string>)

  /** A blank line or a comment is skipped; otherwise the first word is resolved
      through the aliases, and a name that is not a command is rejected. A
      command's line is read twice: as whitespace-separated words (`parts`)
      and split at most `arity` times (`params`), whose last field keeps its
      inner spaces. */
  function Classify(commands: seq<Command>, line: string): (l: Line)
    ensures l.Skip? <==> IsBlank(line) || (|line| > 0 && line[0] == '#')
    ensures !l.Skip? ==> |Tokens(line)| > 0
    ensures l.Unknown? ==>
      l.name == ResolveAlias(commands, Tokens(line)[0]) && l.name !in Names(commands)
    ensures l.Call? ==>
      && l.command in commands
      && l.command.name == ResolveAlias(commands, Tokens(line)[0])
      && l.parts == Tokens(line)
      && l.params == SplitMax(line, l.command.arity)
      && 0 < |l.params| <= |l.parts|
      && FindCommand(commands, l.command.name) == Some(l.command)
  {
    if IsBlank(line) || (|line| > 0 && line[0] == '#') then Skip
    else
      BlankIffNoTokens(line);
      var parts := Tokens(line);
      var name := ResolveAlias(commands, parts[0]);
      match FindCommand(commands, name)
      case None => Unknown(name)
      case Some(c) =>
        SplitMaxAgreesWithTokens(line, c.arity);
        Call(c, parts, SplitMax(line, c.arity))
  }

  /** The registry only grows: no entry is removed or renamed. */
  predicate Grows(before: seq<Media>, after: seq<Media>) {
    && |before| <= |after|
    && forall i :: 0 <= i < |before| ==> after[i].name == before[i].name
  }

  /** One transcoder run from `input` to `produced`, then the rename-over. A
      failed run changes nothing and either leaves the loop (`break`) or goes on
      to the next line, as the command's handler chooses. */
  function RunTool(s: Session, input: string, produced: string, w: World, breakOnFailure: bool): (n: Next)
    ensures n.session.medias == s.medias
    ensures n.session.variables == s.variables
    ensures n.session.attachments == s.attachments
    ensures n.status == (if w.succeeded || !breakOnFailure then Continue else Break)
    ensures !w.succeeded ==> n.session == s
    ensures w.succeeded && input in s.store && produced != input ==>
      && input in n.session.store
      && n.session.store[input] == w.output
      && produced !in n.session.store
    ensures forall p :: p != input && p != produced ==>
      (p in n.session.store <==> p in s.store)
    ensures forall p :: p in n.session.store && p != input && p != produced ==>
      n.session.store[p] == s.store[p]
  {
    if w.succeeded then
      Next(s.(store := RenameOver(s.store[produced := w.output], produced, input)), Continue)
    else
      Next(s, if breakOnFailure then Break else Continue)
  }

  /** `set name expr...`: the rest of the words, joined by single spaces, is
      evaluated and stored under the name. */
  function ExecSet(h: Host, s: Session, parts: seq<string>): (n: Next)
    ensures n.status == (if |parts| < 2 then Raised(IndexError) else Continue)
    ensures n.session.medias == s.medias
    ensures n.session.attachments == s.attachments
    ensures n.session.store == s.store
    ensures |parts| < 2 ==> n.session == s
    ensures |parts| >= 2 ==>
      && n.session.variables.Keys == s.variables.Keys + {parts[1]}
      && n.session.variables[parts[1]] == Evaluate(h, JoinWith(parts[2..], " "), s.variables)
      && forall v :: v in s.variables && v != parts[1] ==> n.session.variables[v] == s.variables[v]
  {
    if |parts| < 2 then Next(s, Raised(IndexError))
    else
      var value := Evaluate(h, JoinWith(parts[2..], " "), s.variables);
      Next(s.(variables := s.variables[parts[1] := value]), Continue)
  }

  /** `get medium property target`: the probed property is stored in the
      target variable when the medium is registered; otherwise nothing happens. */
  function ExecGet(s: Session, parts: seq<string>, w: World): (n: Next)
    ensures n.status == (if |parts| < 4 then Raised(IndexError) else Continue)
    ensures n.session.medias == s.medias
    ensures n.session.attachments == s.attachments
    ensures n.session.store == s.store
    ensures |parts| < 4 || Absent(Lookup(s.medias, parts[1])) ==> n.session == s
    ensures |parts| >= 4 && !Absent(Lookup(s.medias, parts[1])) ==>
      n.session.variables == s.variables[parts[3] := w.probed]
  {
    if |parts| < 4 then Next(s, Raised(IndexError))
    else if Absent(Lookup(s.medias, parts[1])) then Next(s, Continue)
    else Next(s.(variables := s.variables[parts[3] := w.probed]), Continue)
  }

  /** `load url [name]`: the file is named after the URL path's last component
      (or `video_<stamp>.mp4` when that is empty). Every error is printed and
      swallowed, and the downloader reports failure by its return value, which
      is ignored: the entry is registered whether or not the file arrived. */
  function ExecLoad(h: Host, s: Session, params: seq<string>, w: World): (n: Next)
    ensures n.status == Continue
    ensures n.session.variables == s.variables
    ensures n.session.attachments == s.attachments
    ensures |params| < 2 || h.urlPath(params[1]).None? ==> n.session == s
    ensures |params| >= 2 && h.urlPath(params[1]).Some? ==>
      && |n.session.medias| == |s.medias| + 1
      && n.session.medias[..|s.medias|] == s.medias
      && var path := h.urlPath(params[1]).value;
      var file := n.session.medias[|s.medias|].file;
      && n.session.medias[|s.medias|].name == (if |params| > 2 then params[2] else file)
      && (Basename(path) != "" ==> file == Basename(path))
      && (Basename(path) == "" ==> file == "video_" + w.stamp + ".mp4")
      && (w.succeeded ==> n.session.store == s.store[file := w.output])
      && (!w.succeeded ==> n.session.store == s.store)
  {
    if |params| < 2 then Next(s, Continue)
    else match h.urlPath(params[1])
      case None => Next(s, Continue)
      case Some(path) =>
        var file := if Basename(path) == "" then "video_" + w.stamp + ".mp4" else Basename(path);
        var name := if |params| > 2 then params[2] else file;
        var store := if w.succeeded then s.store[file := w.output] else s.store;
        Next(s.(medias := s.medias + [Media(name, file)], store := store), Continue)
  }

  /** `loadfile path [name]`: the caller's file (a relative path is taken from
      the caller's directory) is copied in as `loaded_<stamp>_<basename>` and
      registered; a failed copy is printed and swallowed. */
  function ExecLoadFile(h: Host, s: Session, params: seq<string>, w: World): (n: Next)
    ensures n.status == Continue
    ensures n.session.variables == s.variables
    ensures n.session.attachments == s.attachments
    ensures |params| < 2 || !w.succeeded ==> n.session == s
    ensures |params| >= 2 && w.succeeded ==>
      var base := Basename(params[1]);
      var file := "loaded_" + w.stamp + "_" + base;
      && n.session.medias == s.medias + [Media(if |params| > 2 then params[2] else base, file)]
      && n.session.store == s.store[file := w.output]
  {
    if |params| < 2 then Next(s, Continue)
    else
      var path := ResolvePath(h.originalDir, params[1]);
      var file := "loaded_" + w.stamp + "_" + Basename(path);
      if !w.succeeded then Next(s, Continue)
      else
        var name := if |params| > 2 then params[2] else Basename(path);
        Next(s.(medias := s.medias + [Media(name, file)], store := s.store[file := w.output]), Continue)
  }

  /** `tti name size bounds color text`: size and bounds are evaluated and must
      convert to numbers, the text image is written as `tti_<name>_<stamp>.png`
      and registered under `name`. Nothing here catches errors. */
  function ExecTti(h: Host, s: Session, parts: seq<string>, params: seq<string>, w: World): (n: Next)
    requires |params| <= |parts|
    ensures n.status != Break
    ensures n.session.variables == s.variables
    ensures n.session.attachments == s.attachments
    ensures |params| < 2 ==> n.status == Raised(IscriptError(MissingArgument("tti")))
    ensures n.status.Raised? ==> n.session == s
    ensures n.status == Continue <==>
      && |params| >= 6
      && FloatFault(h, Evaluate(h, parts[2], s.variables)).None?
      && FloatFault(h, Evaluate(h, parts[3], s.variables)).None?
    ensures n.status == Continue ==>
      var file := "tti_" + parts[1] + "_" + w.stamp + ".png";
      && n.session.medias == s.medias + [Media(parts[1], file)]
      && n.session.store == s.store[file := w.output]
  {
    if |params| < 2 then Next(s, Raised(IscriptError(MissingArgument("tti"))))
    else if |parts| < 3 then Next(s, Raised(IndexError))
    else
      var sizeFault := FloatFault(h, Evaluate(h, parts[2], s.variables));
      if sizeFault.Some? then Next(s, Raised(sizeFault.value))
      else if |parts| < 4 then Next(s, Raised(IndexError))
      else
        var boundsFault := FloatFault(h, Evaluate(h, parts[3], s.variables));
        if boundsFault.Some? then Next(s, Raised(boundsFault.value))
        else if |params| < 6 then Next(s, Raised(IndexError))
        else
          var file := "tti_" + parts[1] + "_" + w.stamp + ".png";
          Next(s.(medias := s.medias + [Media(parts[1], file)], store := s.store[file := w.output]), Continue)
  }

  /** `clone original copy`: the original's file is copied to
      `clone_<stamp>_<copy><ext>` and registered as `copy`; a failed copy (a
      missing file, or a `/` in the new name) is printed and swallowed. */
  function ExecClone(s: Session, parts: seq<string>, w: World): (n: Next)
    ensures n.status != Break
    ensures n.session.variables == s.variables
    ensures n.session.attachments == s.attachments
    ensures n.status.Raised? ==> n.session == s
    ensures |parts| < 3 ==> n.status == Raised(IndexError)
    ensures |parts| >= 3 ==>
      (n.status.Raised? <==> Absent(Lookup(s.medias, parts[1])))
    ensures |parts| >= 3 && Absent(Lookup(s.medias, parts[1])) ==>
      n.status == Raised(IscriptError(MediaNotFound(parts[1])))
    ensures n.session.medias != s.medias ==>
      && |parts| >= 3
      && |n.session.medias| == |s.medias| + 1
      && n.session.medias[..|s.medias|] == s.medias
      && n.session.medias[|s.medias|].name == parts[2]
      && !Absent(Lookup(s.medias, parts[1]))
      && var original := Lookup(s.medias, parts[1]).value;
      var copy := n.session.medias[|s.medias|].file;
      && original in s.store
      && n.session.store == s.store[copy := s.store[original]]
      && copy != original
      && '/' !in copy
      && copy == "clone_" + w.stamp + "_" + parts[2] + Extension(original)
    ensures |parts| >= 3 && !Absent(Lookup(s.medias, parts[1])) ==>
      var original := Lookup(s.medias, parts[1]).value;
      var copy := "clone_" + w.stamp + "_" + parts[2] + Extension(original);
      n.session.medias != s.medias <==> original in s.store && copy != original && '/' !in copy
  {
    if |parts| < 3 then Next(s, Raised(IndexError))
    else
      var original := Lookup(s.medias, parts[1]);
      if Absent(original) then Next(s, Raised(IscriptError(MediaNotFound(parts[1]))))
      else
        var file := "clone_" + w.stamp + "_" + parts[2] + Extension(original.value);
        match CopyWithin(s.store, original.value, file)
        case None => Next(s, Continue)
        case Some(store) =>
          Next(s.(medias := s.medias + [Media(parts[2], file)], store := store), Continue)
  }

  /** The file extension `convert` writes for a MIME type: seven known types,
      otherwise a dot and the text after the type's last `/`. */
  const MimeExtensions: map<string, string> := map[
    "audio/wav" := ".wav",
    "audio/mpeg" := ".mp3",
    "audio/ogg" := ".ogg",
    "video/mp4" := ".mp4",
    "video/x-matroska" := ".mkv",
    "image/png" := ".png",
    "image/jpeg" := ".jpg"]

  function ExtensionFor(mime: string): (ext: string)
    ensures |ext| > 0 && ext[0] == '.' && '/' !in ext
    ensures mime in MimeExtensions ==> ext == MimeExtensions[mime]
    ensures mime !in MimeExtensions ==> ext == "." + Basename(mime)
  {
    if mime in MimeExtensions then
      var e := MimeExtensions[mime];
      assert e[0] == '.' && '/' !in e;
      e
    else
      var pieces := SplitOn(mime, '/');
      LastPieceIsBasename(mime);
      "." + pieces[|pieces| - 1]
  }

  /** `convert medium mime`: the medium is transcoded to `conv_<stamp><ext>` and
      EVERY entry with that name (not only the first) now refers to the new
      file; a failed run is printed and the loop goes on. */
  function ExecConvert(s: Session, parts: seq<string>, w: World): (n: Next)
    ensures n.status != Break
    ensures n.session.variables == s.variables
    ensures n.session.attachments == s.attachments
    ensures n.status.Raised? || !w.succeeded ==> n.session == s
    ensures |parts| < 3 ==> n.status == Raised(IndexError)
    ensures |parts| >= 3 ==>
      (n.status.Raised? <==> Absent(Lookup(s.medias, parts[1])))
    ensures |parts| >= 3 && Absent(Lookup(s.medias, parts[1])) ==>
      n.status == Raised(IscriptError(MediaNotFound(parts[1])))
    ensures n.status == Continue && w.succeeded ==>
      var file := "conv_" + w.stamp + ExtensionFor(parts[2]);
      && n.session.medias == Retarget(s.medias, parts[1], file)
      && n.session.store == s.store[file := w.output]
  {
    if |parts| < 3 then Next(s, Raised(IndexError))
    else
      var ext := ExtensionFor(parts[2]);
      var input := Lookup(s.medias, parts[1]);
      if Absent(input) then Next(s, Raised(IscriptError(MediaNotFound(parts[1]))))
      else if !w.succeeded then Next(s, Continue)
      else
        var file := "conv_" + w.stamp + ext;
        Next(s.(medias := Retarget(s.medias, parts[1], file), store := s.store[file := w.output]), Continue)
  }

  /** `overlay base top x y`: the base medium is replaced by the composite; a
      failed run is printed and the loop goes on. */
  function ExecOverlay(s: Session, parts: seq<string>, w: World): (n: Next)
    ensures n.status != Break
    ensures n.session.medias == s.medias
    ensures n.session.variables == s.variables
    ensures n.session.attachments == s.attachments
    ensures n.status.Raised? || !w.succeeded ==> n.session == s
    ensures |parts| < 5 ==> n.status == Raised(IndexError)
    ensures |parts| >= 5 ==>
      (n.status.Raised? <==>
        Absent(Lookup(s.medias, parts[1])) || Absent(Lookup(s.medias, parts[2])))
    ensures |parts| >= 5 && Absent(Lookup(s.medias, parts[1])) ==>
      n.status == Raised(IscriptError(MediaNotFound(parts[1])))
    ensures |parts| >= 5 && !Absent(Lookup(s.medias, parts[1])) && Absent(Lookup(s.medias, parts[2])) ==>
      n.status == Raised(IscriptError(MediaNotFound(parts[2])))
    ensures n.status == Continue && w.succeeded ==>
      var base := Lookup(s.medias, parts[1]).value;
      var produced := "overlay_" + w.stamp + ".mp4";
      base in s.store && base != produced ==>
        && base in n.session.store
        && n.session.store[base] == w.output
        && produced !in n.session.store
  {
    if |parts| < 5 then Next(s, Raised(IndexError))
    else
      var base := Lookup(s.medias, parts[1]);
      var top := Lookup(s.medias, parts[2]);
      if Absent(base) then Next(s, Raised(IscriptError(MediaNotFound(parts[1]))))
      else if Absent(top) then Next(s, Raised(IscriptError(MediaNotFound(parts[2]))))
      else RunTool(s, base.value, "overlay_" + w.stamp + ".mp4", w, false)
  }

  /** `rotate medium degrees color crop`: the angle is evaluated and must convert
      to a number; a failed run is printed and the loop goes on. */
  function ExecRotate(h: Host, s: Session, parts: seq<string>, params: seq<string>, w: World): (n: Next)
    ensures n.status != Break
    ensures n.session.medias == s.medias
    ensures n.session.variables == s.variables
    ensures n.session.attachments == s.attachments
    ensures n.status.Raised? || !w.succeeded ==> n.session == s
    ensures n.status == Continue <==>
      && |params| >= 2
      && |parts| >= 5
      && FloatFault(h, Evaluate(h, parts[2], s.variables)).None?
      && !Absent(Lookup(s.medias, params[1]))
    ensures |params| < 2 || |parts| < 3 ==> n.status == Raised(IndexError)
    ensures |params| >= 2 && |parts| >= 3 ==>
      var fault := FloatFault(h, Evaluate(h, parts[2], s.variables));
      && (fault.Some? ==> n.status == Raised(fault.value))
      && (fault.None? && |parts| < 5 ==> n.status == Raised(IndexError))
      && (fault.None? && |parts| >= 5 && Absent(Lookup(s.medias, params[1])) ==>
            n.status == Raised(IscriptError(MediaNotFound(params[1]))))
    ensures n.status == Continue && w.succeeded ==>
      var input := Lookup(s.medias, params[1]).value;
      var produced := "rotate_" + w.stamp + ".mp4";
      input in s.store && input != produced ==>
        && input in n.session.store
        && n.session.store[input] == w.output
        && produced !in n.session.store
  {
    if |params| < 2 then Next(s, Raised(IndexError))
    else
      var input := Lookup(s.medias, params[1]);
      if |parts| < 3 then Next(s, Raised(IndexError))
      else
        var fault := FloatFault(h, Evaluate(h, parts[2], s.variables));
        if fault.Some? then Next(s, Raised(fault.value))
        else if |parts| < 5 then Next(s, Raised(IndexError))
        else if Absent(input) then Next(s, Raised(IscriptError(MediaNotFound(params[1]))))
        else RunTool(s, input.value, "rotate_" + w.stamp + ".mp4", w, false)
  }

  /** `join a b vertical` and `audioputmix a b`: both media must be registered
      (`join` also reads its layout flag); the first is replaced by the mix, and
      a failed run leaves the loop. */
  function ExecMix(s: Session, readsLayout: bool, params: seq<string>, w: World): (n: Next)
    ensures n.session.medias == s.medias
    ensures n.session.variables == s.variables
    ensures n.session.attachments == s.attachments
    ensures n.status.Raised? || !w.succeeded ==> n.session == s
    ensures n.status == Break <==> !w.succeeded && !n.status.Raised?
    ensures !n.status.Raised? <==>
      && |params| >= (if readsLayout then 4 else 3)
      && !Absent(Lookup(s.medias, params[1]))
      && !Absent(Lookup(s.medias, params[2]))
    ensures |params| < 3 ==> n.status == Raised(IndexError)
    ensures |params| >= 3 && Absent(Lookup(s.medias, params[1])) ==>
      n.status == Raised(IscriptError(MediaNotFound(params[1])))
    ensures |params| >= 3 && !Absent(Lookup(s.medias, params[1])) && Absent(Lookup(s.medias, params[2])) ==>
      n.status == Raised(IscriptError(MediaNotFound(params[2])))
    ensures (|params| == 3 && readsLayout &&
             !Absent(Lookup(s.medias, params[1])) && !Absent(Lookup(s.medias, params[2]))) ==>
      n.status == Raised(IndexError)
    ensures n.status == Continue ==>
      var first := Lookup(s.medias, params[1]).value;
      first in s.store ==>
        && first in n.session.store
        && n.session.store[first] == w.output
        && "aputmix_" + first !in n.session.store
  {
    if |params| < 2 then Next(s, Raised(IndexError))
    else
      var first := Lookup(s.medias, params[1]);
      if |params| < 3 then Next(s, Raised(IndexError))
      else
        var second := Lookup(s.medias, params[2]);
        if Absent(first) then Next(s, Raised(IscriptError(MediaNotFound(params[1]))))
        else if Absent(second) then Next(s, Raised(IscriptError(MediaNotFound(params[2]))))
        else if readsLayout && |params| < 4 then Next(s, Raised(IndexError))
        else
          assert |"aputmix_" + first.value| > |first.value|;
          RunTool(s, first.value, "aputmix_" + first.value, w, true)
  }

  /** `render medium label`: declares an output (the label falls back to the
      command word when empty) and leaves the loop. */
  function ExecRender(s: Session, params: seq<string>): (n: Next)
    requires |params| > 0
    ensures n.status == (if |params| < 3 then Raised(IndexError) else Break)
    ensures n.session.medias == s.medias
    ensures n.session.variables == s.variables
    ensures n.session.store == s.store
    ensures |params| < 3 ==> n.session == s
    ensures |params| >= 3 ==>
      && |n.session.attachments| == |s.attachments| + 1
      && n.session.attachments[..|s.attachments|] == s.attachments
      && n.session.attachments[|s.attachments|].file == Lookup(s.medias, params[1])
      && n.session.attachments[|s.attachments|].name == (if params[2] != "" then params[2] else params[0])
  {
    if |params| < 2 then Next(s, Raised(IndexError))
    else
      var media := Lookup(s.medias, params[1]);
      if |params| < 3 then Next(s, Raised(IndexError))
      else
        var caption := if params[2] != "" then params[2] else params[0];
        Next(s.(attachments := s.attachments + [Attachment(media, caption)]), Break)
  }

  /** What a single-input filter takes from its line besides the medium. */
  datatype Operand =
    | NoOperand      // nothing
    | RawOperand     // `parameters[2]`, pasted into the filter as written
    | NumberOperand  // `float(evaluate_expression(parameters[2]))`
    | HueOperand     // `float(parameters[2])`, then the colour table is generated
    | ExplodeOperand // `explode`'s optional strength (see OperandFault)

  /** A single-input filter: the prefix of the file it writes, and its operand. */
  datatype Rewrite = Rewrite(prefix: string, operand: Operand)

  /** The commands that rewrite one medium in place through the transcoder and
      leave the loop when it fails. */
  const Rewrites: map<string, Rewrite> := map[
    "invert" := Rewrite("invert_", NoOperand),
    "reverse" := Rewrite("reversed_", NoOperand),
    "speed" := Rewrite("speed_", RawOperand),
    "hueshifthsv" := Rewrite("hueshifthsv_", HueOperand),
    "swirl" := Rewrite("swirl_", NumberOperand),
    "explode" := Rewrite("explode_", ExplodeOperand),
    "flip" := Rewrite("flip_", NoOperand),
    "flop" := Rewrite("flop_", NoOperand),
    "haah" := Rewrite("haah_", NoOperand),
    "waaw" := Rewrite("waaw_", NoOperand),
    "woow" := Rewrite("woow_", NoOperand),
    "hooh" := Rewrite("hooh_", NoOperand),
    "contrast" := Rewrite("contrast_", NumberOperand),
    "brightness" := Rewrite("brightness_", NumberOperand),
    "darken" := Rewrite("darken_", NumberOperand),
    "blur" := Rewrite("blur_", NumberOperand),
    "volume" := Rewrite("volume_", NumberOperand),
    "audiopitch" := Rewrite("apitch_", NumberOperand)]

  /** The exception reading the operand raises, if any. `explode` evaluates its
      strength inside a handler that only catches the missing-argument error,
      and binds its strength variable only in that handler: without a strength
      the default is bound and used; with one that converts, the filter text
      reads the variable, which is unbound unless an earlier `explode` line
      bound it (`bound`). */
  function OperandFault(h: Host, vars: map<string, Value>, bound: bool, op: Operand, params: seq<string>, w: World): (e: Option<Exception>)
    ensures op == NoOperand ==> e.None?
    ensures op != NoOperand && op != ExplodeOperand && |params| < 3 ==> e == Some(IndexError)
    ensures op == ExplodeOperand ==>
      (e.None? <==> |params| < 3 || (bound && FloatFault(h, Evaluate(h, params[2], vars)).None?))
    ensures op == ExplodeOperand && |params| >= 3 && FloatFault(h, Evaluate(h, params[2], vars)).Some? ==>
      e == FloatFault(h, Evaluate(h, params[2], vars))
    ensures op == ExplodeOperand && |params| >= 3 && !bound ==> e.Some?
    ensures op == HueOperand && |params| >= 3 ==>
      (e.None? <==> h.acceptsFloat(params[2]) && w.hueOk)
    ensures op == NumberOperand && |params| >= 3 ==>
      e == FloatFault(h, Evaluate(h, params[2], vars))
  {
    match op
    case NoOperand => None
    case RawOperand => if |params| < 3 then Some(IndexError) else None
    case NumberOperand =>
      if |params| < 3 then Some(IndexError) else FloatFault(h, Evaluate(h, params[2], vars))
    case HueOperand =>
      if |params| < 3 then Some(IndexError)
      else if FloatFault(h, Str(params[2])).Some? then FloatFault(h, Str(params[2]))
      else if !w.hueOk then Some(SystemError)
      else None
    case ExplodeOperand =>
      if |params| < 3 then None
      else if FloatFault(h, Evaluate(h, params[2], vars)).Some? then FloatFault(h, Evaluate(h, params[2], vars))
      else if bound then None
      else Some(NameError)
  }

  /** A single-input filter: look the medium up, read the operand, run the
      transcoder to `<prefix><file>` and rename the result over the input. An
      `explode` line without a strength binds the default before the run. */
  function ExecRewrite(h: Host, s: Session, rw: Rewrite, params: seq<string>, w: World): (n: Next)
    requires rw.prefix != []
    ensures n.session.medias == s.medias
    ensures n.session.variables == s.variables
    ensures n.session.attachments == s.attachments
    ensures n.status.Raised? ==> n.session == s
    ensures !w.succeeded ==> n.session == s.(explodeBound := n.session.explodeBound)
    ensures n.session.explodeBound <==>
      s.explodeBound || (rw.operand == ExplodeOperand && |params| < 3 && !n.status.Raised?)
    ensures |params| < 2 ==> n.status == Raised(IndexError)
    ensures |params| >= 2 && Absent(Lookup(s.medias, params[1])) ==>
      n.status == Raised(IscriptError(MediaNotFound(params[1])))
    ensures n.status == Break <==> !w.succeeded && !n.status.Raised?
    ensures !n.status.Raised? <==>
      && |params| >= 2
      && !Absent(Lookup(s.medias, params[1]))
      && OperandFault(h, s.variables, s.explodeBound, rw.operand, params, w).None?
    ensures n.status == Continue ==>
      var input := Lookup(s.medias, params[1]).value;
      input in s.store ==>
        && input in n.session.store
        && n.session.store[input] == w.output
        && rw.prefix + input !in n.session.store
  {
    if |params| < 2 then Next(s, Raised(IndexError))
    else
      var input := Lookup(s.medias, params[1]);
      if Absent(input) then Next(s, Raised(IscriptError(MediaNotFound(params[1]))))
      else match OperandFault(h, s.variables, s.explodeBound, rw.operand, params, w)
        case Some(e) => Next(s, Raised(e))
        case None =>
          var bound := s.explodeBound || (rw.operand == ExplodeOperand && |params| < 3);
          assert |rw.prefix + input.value| > |input.value|;
          RunTool(s.(explodeBound := bound), input.value, rw.prefix + input.value, w, true)
  }

  /** The dispatch on the resolved command name. A schema command with no
      handler does nothing. */
  function Execute(h: Host, s: Session, name: string, parts: seq<string>, params: seq<string>, w: World): Next
    requires 0 < |params| <= |parts|
  {
    if name == "set" then ExecSet(h, s, parts)
    else if name == "get" then ExecGet(s, parts, w)
    else if name == "load" then ExecLoad(h, s, params, w)
    else if name == "loadfile" then ExecLoadFile(h, s, params, w)
    else if name == "tti" then ExecTti(h, s, parts, params, w)
    else if name == "clone" then ExecClone(s, parts, w)
    else if name == "join" || name == "audioputmix" then ExecMix(s, name == "join", params, w)
    else if name == "convert" then ExecConvert(s, parts, w)
    else if name == "overlay" then ExecOverlay(s, parts, w)
    else if name == "rotate" then ExecRotate(h, s, parts, params, w)
    else if name == "render" then ExecRender(s, params)
    else if name in Rewrites then ExecRewrite(h, s, Rewrites[name], params, w)
    else Next(s, Continue)
  }

  /** One line of the script. */
  function Step(h: Host, commands: seq<Command>, s: Session, line: string, w: World): Next {
    match Classify(commands, line)
    case Skip => Next(s, Continue)
    case Unknown(name) => Next(s, Raised(IscriptError(UnknownCommand(name))))
    case Call(c, parts, params) => Execute(h, s, c.name, parts, params, w)
  }

  /** The loop from line `k` on: it stops at the end of the script, at a
      `break`, or when an exception escapes. Line `k` sees `world(k)`. */
  function RunFrom(h: Host, commands: seq<Command>, world: nat -> World, lines: seq<string>, k: nat, s: Session): Next
    requires k <= |lines|
    decreases |lines| - k
  {
    if k == |lines| then Next(s, Continue)
    else
      var n := Step(h, commands, s, lines[k], world(k));
      if n.status == Continue then RunFrom(h, commands, world, lines, k + 1, n.session) else n
  }

  /** The outputs after the loop: what `render` declared, or else the first
      registered medium. */
  function Chosen(s: Session): (r: seq<Attachment>)
    ensures s.attachments != [] ==> r == s.attachments
    ensures s.attachments == [] ==> |r| <= 1 && (r != [] <==> s.medias != [])
    ensures s.attachments == [] && s.medias != [] ==>
      r[0].file == Some(s.medias[0].file) && r[0].name == s.medias[0].name
  {
    if s.attachments != [] then s.attachments
    else if s.medias != [] then [Attachment(Some(s.medias[0].file), s.medias[0].name)]
    else []
  }

  /** The output's file exists in the temporary directory. */
  predicate Ready(store: Store, a: Attachment) {
    a.file.Some? && a.file.value in store
  }

  /** Where `shutil.copy2` puts an output: the caller's directory, same basename. */
  function Destination(dir: string, a: Attachment): Delivered
    requires a.file.Some?
  {
    Delivered(PathJoin(dir, Basename(a.file.value)), a.name)
  }

  /** What copying an output that is not ready raises: a missing file name is a
      type error, a file not in the temporary directory is not found. */
  function CopyFault(a: Attachment): Exception {
    if a.file.None? then TypeError else FileNotFoundError(a.file.value)
  }

  /** The position of the first output that is not ready, or the number of
      outputs when all are. */
  function FirstUnready(store: Store, atts: seq<Attachment>): (k: nat)
    ensures k <= |atts|
    ensures forall j :: 0 <= j < k ==> Ready(store, atts[j])
    ensures k < |atts| ==> !Ready(store, atts[k])
  {
    if atts == [] || !Ready(store, atts[0]) then 0
    else 1 + FirstUnready(store, atts[1..])
  }

  /** Where each output goes, in order. */
  function Destinations(dir: string, atts: seq<Attachment>): (r: seq<Delivered>)
    requires forall i :: 0 <= i < |atts| ==> atts[i].file.Some?
    ensures |r| == |atts|
    ensures forall i :: 0 <= i < |atts| ==> r[i] == Destination(dir, atts[i])
  {
    Map((a: Attachment) requires a.file.Some? => Destination(dir, a), atts)
  }

  /** Copy each output to the caller's directory under its basename, in order;
      the first output that is not ready aborts the copy-out. */
  function Deliver(dir: string, store: Store, atts: seq<Attachment>): (r: Result<seq<Delivered>, Exception>)
    ensures r.Success? <==> forall i :: 0 <= i < |atts| ==> Ready(store, atts[i])
    ensures r.Success? ==> r.value == Destinations(dir, atts)
    ensures var k := FirstUnready(store, atts);
      k < |atts| ==> r == Failure(CopyFault(atts[k]))
  {
    var k := FirstUnready(store, atts);
    if k < |atts| then Failure(CopyFault(atts[k]))
    else Success(Destinations(dir, atts))
  }

  /** `parse`: run every line from a fresh session, then deliver the outputs.
      The temporary directory is discarded either way. */
  function Parse(h: Host, commands: seq<Command>, world: nat -> World, code: string): Result<seq<Delivered>, Exception> {
    var n := RunFrom(h, commands, world, SplitLines(code), 0, Initial);
    if n.status.Raised? then Failure(n.status.error)
    else Deliver(h.originalDir, n.session.store, Chosen(n.session))
  }
}
