/** Properties of the interpreter loop: what one line can and cannot do to the
    session, what the whole loop keeps, when it stops, and what a run
    delivers. */
module InterpreterFacts {
  import opened Common
  import opened Text
  import opened Paths
  import opened Schema
  import opened Registry
  import opened Workspace
  import opened Evaluator
  import opened Interpreter

  /** Every registered entry has a non-empty file name, so a registered name
      never looks absent to the handlers' truth test. */
  predicate WellFormed(s: Session) {
    forall i :: 0 <= i < |s.medias| ==> s.medias[i].file != ""
  }

  /** In a well-formed registry, "not found" means exactly "no entry has the
      name". */
  lemma AbsentIffUnregistered(s: Session, name: string)
    requires WellFormed(s)
    ensures Absent(Lookup(s.medias, name)) <==> forall i :: 0 <= i < |s.medias| ==> s.medias[i].name != name
  {
    var r := Lookup(s.medias, name);
    if r.Some? {
      var i :| 0 <= i < |s.medias| && s.medias[i] == Media(name, r.value);
      assert r.value != "";
    }
  }

  /** The dispatcher rejects a word exactly when no command answers to it by
      name or alias, and the rejection names the word as written. */
  lemma {:induction false} UnknownWordIsRejected(h: Host, commands: seq<Command>, s: Session, line: string, w: World)
    requires Tokens(line) != [] && line[0] != '#'
    ensures Classify(commands, line).Unknown? <==>
      forall i :: 0 <= i < |commands| ==> !Answers(commands[i], Tokens(line)[0])
    ensures Classify(commands, line).Unknown? ==>
      Step(h, commands, s, line, w) == Next(s, Raised(IscriptError(UnknownCommand(Tokens(line)[0]))))
  {
    BlankIffNoTokens(line);
    var word := Tokens(line)[0];
    ResolvedIsNameIffAnswered(commands, word);
    if forall i :: 0 <= i < |commands| ==> !Answers(commands[i], word) {
      assert ResolveAlias(commands, word) == word;
    }
  }

  /** What one line can do to the session: the registry only grows, outputs
      are declared only by a line that leaves the loop, at most one per line,
      a line that raises leaves the session exactly as it found it, and
      registered files stay non-empty. */
  predicate Keeps(s: Session, n: Next) {
    && Grows(s.medias, n.session.medias)
    && (n.status.Raised? ==> n.session == s)
    && (n.status != Break ==> n.session.attachments == s.attachments)
    && (n.session.attachments == s.attachments
        || (|n.session.attachments| == |s.attachments| + 1
            && n.session.attachments[..|s.attachments|] == s.attachments))
    && (WellFormed(s) ==> WellFormed(n.session))
  }

  /** Every command handler keeps the session invariants. */
  lemma ExecuteKeeps(h: Host, s: Session, name: string, parts: seq<string>, params: seq<string>, w: World)
    requires 0 < |params| <= |parts|
    ensures Keeps(s, Execute(h, s, name, parts, params, w))
  {
    if name == "set" {
      FrameKeeps(s, ExecSet(h, s, parts));
    } else if name == "get" {
      FrameKeeps(s, ExecGet(s, parts, w));
    } else if name == "load" {
      LoadKeeps(h, s, params, w);
    } else if name == "loadfile" {
      LoadFileKeeps(h, s, params, w);
    } else if name == "tti" {
      TtiKeeps(h, s, parts, params, w);
    } else if name == "clone" {
      CloneKeeps(s, parts, w);
    } else if name == "join" || name == "audioputmix" {
      FrameKeeps(s, ExecMix(s, name == "join", params, w));
    } else if name == "convert" {
      ConvertKeeps(s, parts, w);
    } else if name == "overlay" {
      FrameKeeps(s, ExecOverlay(s, parts, w));
    } else if name == "rotate" {
      FrameKeeps(s, ExecRotate(h, s, parts, params, w));
    } else if name == "render" {
      RenderKeeps(s, params);
    } else if name in Rewrites {
      FrameKeeps(s, ExecRewrite(h, s, Rewrites[name], params, w));
    } else {
      FrameKeeps(s, Next(s, Continue));
    }
  }

  /** A line that touches neither the registry nor the outputs, and raises
      only with the session untouched, keeps the invariants. */
  lemma FrameKeeps(s: Session, n: Next)
    requires n.session.medias == s.medias && n.session.attachments == s.attachments
    requires n.status.Raised? ==> n.session == s
    ensures Keeps(s, n)
  {
  }

  lemma TtiKeeps(h: Host, s: Session, parts: seq<string>, params: seq<string>, w: World)
    requires |params| <= |parts|
    ensures Keeps(s, ExecTti(h, s, parts, params, w))
  {
    var n := ExecTti(h, s, parts, params, w);
    if n.status == Continue {
      var file := "tti_" + parts[1] + "_" + w.stamp + ".png";
      assert file[0] == 't';
      AppendKeepsWellFormed(s, n.session, Media(parts[1], file));
    }
  }

  lemma ConvertKeeps(s: Session, parts: seq<string>, w: World)
    ensures Keeps(s, ExecConvert(s, parts, w))
  {
    if |parts| >= 3 && !Absent(Lookup(s.medias, parts[1])) && w.succeeded {
      var file := "conv_" + w.stamp + ExtensionFor(parts[2]);
      assert file[0] == 'c';
      RetargetKeeps(s, ExecConvert(s, parts, w).session, parts[1], file);
    }
  }

  /** Retargeting a name to a non-empty file keeps the registry's names and
      keeps it well formed. */
  lemma RetargetKeeps(s: Session, t: Session, name: string, file: string)
    requires file != "" && t.medias == Retarget(s.medias, name, file)
    ensures Grows(s.medias, t.medias)
    ensures WellFormed(s) ==> WellFormed(t)
  {
  }

  lemma RenderKeeps(s: Session, params: seq<string>)
    requires |params| > 0
    ensures Keeps(s, ExecRender(s, params))
  {
  }

  lemma LoadKeeps(h: Host, s: Session, params: seq<string>, w: World)
    ensures Keeps(s, ExecLoad(h, s, params, w))
  {
    if |params| >= 2 && h.urlPath(params[1]).Some? {
      var path := h.urlPath(params[1]).value;
      var file := if Basename(path) == "" then "video_" + w.stamp + ".mp4" else Basename(path);
      assert file != "" by {
        if Basename(path) == "" {
          assert file[0] == 'v';
        }
      }
      var name := if |params| > 2 then params[2] else file;
      AppendKeepsWellFormed(s, ExecLoad(h, s, params, w).session, Media(name, file));
    }
  }

  lemma LoadFileKeeps(h: Host, s: Session, params: seq<string>, w: World)
    ensures Keeps(s, ExecLoadFile(h, s, params, w))
  {
    var n := ExecLoadFile(h, s, params, w);
    if |params| >= 2 && w.succeeded {
      var file := "loaded_" + w.stamp + "_" + Basename(params[1]);
      var e := Media(if |params| > 2 then params[2] else Basename(params[1]), file);
      assert n.session.medias == s.medias + [e];
      assert file[0] == 'l';
      AppendKeepsWellFormed(s, n.session, e);
    }
  }

  /** Registering an entry with a non-empty file keeps the registry well formed. */
  lemma AppendKeepsWellFormed(s: Session, t: Session, e: Media)
    requires e.file != "" && t.medias == s.medias + [e]
    ensures WellFormed(s) ==> WellFormed(t)
  {
  }

  lemma CloneKeeps(s: Session, parts: seq<string>, w: World)
    ensures Keeps(s, ExecClone(s, parts, w))
  {
    if |parts| >= 3 && !Absent(Lookup(s.medias, parts[1])) {
      var original := Lookup(s.medias, parts[1]).value;
      var file := "clone_" + w.stamp + "_" + parts[2] + Extension(original);
      assert file[0] == 'c';
      if CopyWithin(s.store, original, file).Some? {
        AppendKeepsWellFormed(s, ExecClone(s, parts, w).session, Media(parts[2], file));
      }
    }
  }

  /** One line keeps the session invariants. */
  lemma StepKeeps(h: Host, commands: seq<Command>, s: Session, line: string, w: World)
    ensures Keeps(s, Step(h, commands, s, line, w))
  {
    match Classify(commands, line)
    case Skip =>
    case Unknown(_) =>
    case Call(c, parts, params) => ExecuteKeeps(h, s, c.name, parts, params, w);
  }

  /** The same, for the loop from line `k` on. */
  lemma {:induction false} RunKeeps(h: Host, commands: seq<Command>, world: nat -> World, lines: seq<string>, k: nat, s: Session)
    requires k <= |lines|
    ensures var n := RunFrom(h, commands, world, lines, k, s);
      && Grows(s.medias, n.session.medias)
      && (n.status == Continue ==> n.session.attachments == s.attachments)
      && |s.attachments| <= |n.session.attachments| <= |s.attachments| + 1
      && n.session.attachments[..|s.attachments|] == s.attachments
      && (WellFormed(s) ==> WellFormed(n.session))
    decreases |lines| - k
  {
    if k < |lines| {
      var n := Step(h, commands, s, lines[k], world(k));
      StepKeeps(h, commands, s, lines[k], world(k));
      if n.status == Continue {
        RunKeeps(h, commands, world, lines, k + 1, n.session);
        var m := RunFrom(h, commands, world, lines, k + 1, n.session);
        assert m.session.attachments[..|s.attachments|] == s.attachments;
      }
    }
  }

  /** Once a line leaves the loop or raises, nothing after it runs: appending
      lines to the script changes nothing. */
  lemma {:induction false} HaltIgnoresRest(h: Host, commands: seq<Command>, world: nat -> World, lines: seq<string>, rest: seq<string>, k: nat, s: Session)
    requires k <= |lines|
    requires RunFrom(h, commands, world, lines, k, s).status != Continue
    ensures RunFrom(h, commands, world, lines + rest, k, s) == RunFrom(h, commands, world, lines, k, s)
    decreases |lines| - k
  {
    assert (lines + rest)[k] == lines[k];
    var n := Step(h, commands, s, lines[k], world(k));
    if n.status == Continue {
      assert RunFrom(h, commands, world, lines, k, s) == RunFrom(h, commands, world, lines, k + 1, n.session);
      assert RunFrom(h, commands, world, lines + rest, k, s) == RunFrom(h, commands, world, lines + rest, k + 1, n.session);
      HaltIgnoresRest(h, commands, world, lines, rest, k + 1, n.session);
    }
  }

  /** A script that runs to its end hands its session on: running more lines
      afterwards is running them from where it stopped. */
  lemma {:induction false} RunComposes(h: Host, commands: seq<Command>, world: nat -> World, lines: seq<string>, rest: seq<string>, k: nat, s: Session)
    requires k <= |lines|
    requires RunFrom(h, commands, world, lines, k, s).status == Continue
    ensures RunFrom(h, commands, world, lines + rest, k, s)
      == RunFrom(h, commands, world, lines + rest, |lines|, RunFrom(h, commands, world, lines, k, s).session)
    decreases |lines| - k
  {
    if k < |lines| {
      assert (lines + rest)[k] == lines[k];
      var n := Step(h, commands, s, lines[k], world(k));
      assert RunFrom(h, commands, world, lines, k, s) == RunFrom(h, commands, world, lines, k + 1, n.session);
      assert RunFrom(h, commands, world, lines + rest, k, s) == RunFrom(h, commands, world, lines + rest, k + 1, n.session);
      RunComposes(h, commands, world, lines, rest, k + 1, n.session);
    }
  }

  /** The outputs of a run: at most one, since `render` leaves the loop. A run
      that reaches the end of the script declares none. A run that ends
      without an exception and without a declared output (the end of the
      script, or a failed transcoder run that left the loop) delivers its first
      registered medium under that medium's name, or nothing when it
      registered none; the first registered name is never lost or renamed. */
  lemma RunOutputs(h: Host, commands: seq<Command>, world: nat -> World, code: string)
    ensures var n := RunFrom(h, commands, world, SplitLines(code), 0, Initial);
      var r := Parse(h, commands, world, code);
      && (n.status.Raised? ==> r == Failure(n.status.error))
      && (r.Success? ==> |r.value| <= 1)
      && (n.status == Continue ==> n.session.attachments == [])
      && (!n.status.Raised? && n.session.attachments == [] && n.session.medias == [] ==> r == Success([]))
      && (!n.status.Raised? && n.session.attachments == [] && n.session.medias != [] ==>
            r == Deliver(h.originalDir, n.session.store, [Attachment(Some(n.session.medias[0].file), n.session.medias[0].name)]))
  {
    RunKeeps(h, commands, world, SplitLines(code), 0, Initial);
  }

  /** A line that raises ends `parse` with that exception: the lines after it
      are never run and nothing is delivered. */
  lemma RaisedLineEndsParse(h: Host, commands: seq<Command>, world: nat -> World, code: string, k: nat)
    requires var lines := SplitLines(code);
      && k < |lines|
      && RunFrom(h, commands, world, lines[..k], 0, Initial).status == Continue
      && Step(h, commands, RunFrom(h, commands, world, lines[..k], 0, Initial).session, lines[k], world(k)).status.Raised?
    ensures Parse(h, commands, world, code) ==
      Failure(Step(h, commands, RunFrom(h, commands, world, SplitLines(code)[..k], 0, Initial).session,
                   SplitLines(code)[k], world(k)).status.error)
  {
    var lines := SplitLines(code);
    assert lines == lines[..k] + lines[k..];
    RunComposes(h, commands, world, lines[..k], lines[k..], 0, Initial);
  }

  /** After a successful `convert`, the converted name resolves to the new file
      and every other name resolves as before. */
  lemma {:induction false} ConvertRetargets(s: Session, parts: seq<string>, w: World, other: string)
    requires |parts| >= 3 && !Absent(Lookup(s.medias, parts[1])) && w.succeeded
    ensures var n := ExecConvert(s, parts, w);
      && Lookup(n.session.medias, parts[1]) == Some("conv_" + w.stamp + ExtensionFor(parts[2]))
      && (other != parts[1] ==> Lookup(n.session.medias, other) == Lookup(s.medias, other))
  {
    LookupAfterRetarget(s.medias, parts[1], "conv_" + w.stamp + ExtensionFor(parts[2]), other);
  }

  /** A `clone` under a name that is already registered does not hide the
      existing entry: lookups of that name still find the old file. */
  lemma {:induction false} CloneNeverShadows(s: Session, parts: seq<string>, w: World, name: string)
    requires |parts| >= 3
    ensures var n := ExecClone(s, parts, w);
      Lookup(n.session.medias, name) ==
        if n.session.medias == s.medias || Lookup(s.medias, name).Some? || name != parts[2]
        then Lookup(s.medias, name)
        else Some(n.session.medias[|s.medias|].file)
  {
    var n := ExecClone(s, parts, w);
    if n.session.medias != s.medias {
      var e := n.session.medias[|s.medias|];
      assert n.session.medias == s.medias + [e];
      LookupAfterAppend(s.medias, e, name);
    }
  }

  /** `explode` with a strength that converts runs exactly when an earlier
      `explode` line without a strength has bound the default; until then it
      raises `NameError`. */
  lemma ExplodeStrengthNeedsBinding(h: Host, s: Session, params: seq<string>, w: World)
    requires |params| >= 3 && !Absent(Lookup(s.medias, params[1]))
    requires FloatFault(h, Evaluate(h, params[2], s.variables)).None?
    ensures var n := ExecRewrite(h, s, Rewrites["explode"], params, w);
      && (n.status.Raised? <==> !s.explodeBound)
      && (!s.explodeBound ==> n.status == Raised(NameError))
  {
  }

  /** An `explode` line without a strength on a registered medium binds the
      default, whether or not its transcoder run succeeds, and a later
      `explode` on a registered medium whose strength converts then runs. */
  lemma ExplodeDefaultBinds(h: Host, s: Session, first: seq<string>, second: seq<string>, w1: World, w2: World)
    requires |first| == 2 && !Absent(Lookup(s.medias, first[1]))
    requires |second| >= 3 && !Absent(Lookup(s.medias, second[1]))
    requires FloatFault(h, Evaluate(h, second[2], s.variables)).None?
    ensures var t := ExecRewrite(h, s, Rewrites["explode"], first, w1).session;
      && t.explodeBound
      && !ExecRewrite(h, t, Rewrites["explode"], second, w2).status.Raised?
  {
    var rw := Rewrites["explode"];
    assert rw == Rewrite("explode_", ExplodeOperand);
    var n := ExecRewrite(h, s, rw, first, w1);
    assert !n.status.Raised?;
    var t := n.session;
    assert t.medias == s.medias && t.variables == s.variables && t.explodeBound;
    ExplodeStrengthNeedsBinding(h, t, second, w2);
  }

  /** Two `set`s of the same variable: the second value is the one kept. */
  lemma SetLastWriteWins(h: Host, s: Session, first: seq<string>, second: seq<string>)
    requires |first| >= 2 && |second| >= 2 && first[1] == second[1]
    ensures var n := ExecSet(h, ExecSet(h, s, first).session, second);
      n.session.variables[second[1]]
        == Evaluate(h, JoinWith(second[2..], " "), ExecSet(h, s, first).session.variables)
  {
  }

  /** A `render` line always carries a non-empty third field, so the label's
      fallback to the command word never applies: the label is the third field. */
  lemma {:induction false} RenderLabelIsThirdField(commands: seq<Command>, s: Session, line: string)
    requires Classify(commands, line).Call?
    requires |Classify(commands, line).params| >= 3
    ensures var l := Classify(commands, line);
      ExecRender(s, l.params).session.attachments[|s.attachments|].name == l.params[2]
  {
    var l := Classify(commands, line);
    assert l.params[2] != "";
  }
}
