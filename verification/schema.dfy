/** The command schema: the descriptor list loaded once from the command file,
    alias resolution and the validity test the dispatcher applies. */
module Schema {
  import opened Common

  /** One descriptor: canonical name, alternative names, and the declared
      argument count (the length of its `args` list). */
  datatype Command = Command(name: string, aliases: seq<string>, arity: nat)

  /** `command_names`: the canonical names, in schema order. */
  function Names(commands: seq<Command>): (r: seq<string>)
    ensures |r| == |commands|
    ensures forall i :: 0 <= i < |commands| ==> r[i] == commands[i].name
  {
    if commands == [] then [] else [commands[0].name] + Names(commands[1..])
  }

  /** The command answers to `word` by its name or one of its aliases. */
  predicate Answers(c: Command, word: string) {
    c.name == word || word in c.aliases
  }

  /** `resolve_alias`: scan the schema in order and return the name of the first
      command that answers to `word`; a word nobody answers to comes back as is. */
  function ResolveAlias(commands: seq<Command>, word: string): (r: string)
    ensures r == word || r in Names(commands)
    ensures (forall i :: 0 <= i < |commands| ==> !Answers(commands[i], word)) ==> r == word
    ensures forall i :: 0 <= i < |commands| && Answers(commands[i], word) ==>
      (forall j :: 0 <= j < i ==> !Answers(commands[j], word)) ==> r == commands[i].name
  {
    if commands == [] then word
    else if commands[0].name == word then word
    else if word in commands[0].aliases then commands[0].name
    else
      var r := ResolveAlias(commands[1..], word);
      assert forall i :: 0 < i < |commands| ==> commands[i] == commands[1..][i - 1];
      r
  }

  /** The descriptor the dispatcher uses for a resolved name: the first one in
      schema order that carries the name, since the schema may repeat one. */
  function FindCommand(commands: seq<Command>, name: string): (r: Option<Command>)
    ensures r.None? <==> name !in Names(commands)
    ensures r.Some? ==> r.value in commands && r.value.name == name
    ensures r.Some? ==>
      exists i :: 0 <= i < |commands| && commands[i] == r.value &&
        forall j :: 0 <= j < i ==> commands[j].name != name
  {
    var i := FirstNamed(commands, name);
    if i < |commands| then
      assert Names(commands)[i] == name;
      Some(commands[i])
    else
      assert forall k :: 0 <= k < |commands| ==> Names(commands)[k] != name;
      None
  }

  /** The position of the first command with this name, or the number of
      commands when none has it. */
  function FirstNamed(commands: seq<Command>, name: string): (i: nat)
    ensures i <= |commands|
    ensures forall j :: 0 <= j < i ==> commands[j].name != name
    ensures i < |commands| ==> commands[i].name == name
  {
    if commands == [] || commands[0].name == name then 0
    else 1 + FirstNamed(commands[1..], name)
  }

  /** The dispatcher rejects exactly the words no command answers to: the
      resolved word is a command name if and only if some command answers. */
  lemma {:induction false} ResolvedIsNameIffAnswered(commands: seq<Command>, word: string)
    ensures ResolveAlias(commands, word) in Names(commands)
        <==> exists i :: 0 <= i < |commands| && Answers(commands[i], word)
  {
    var r := ResolveAlias(commands, word);
    if exists i :: 0 <= i < |commands| && Answers(commands[i], word) {
      var i := FirstAnswer(commands, word);
      assert r == commands[i].name;
      assert Names(commands)[i] == r;
    } else {
      assert r == word;
    }
  }

  /** The position of the first command answering to `word`. */
  lemma FirstAnswer(commands: seq<Command>, word: string) returns (i: nat)
    requires exists i :: 0 <= i < |commands| && Answers(commands[i], word)
    ensures i < |commands| && Answers(commands[i], word)
    ensures forall j :: 0 <= j < i ==> !Answers(commands[j], word)
  {
    var k :| 0 <= k < |commands| && Answers(commands[k], word);
    i := 0;
    while !Answers(commands[i], word)
      invariant i <= k
      invariant forall j :: 0 <= j < i ==> !Answers(commands[j], word)
      decreases k - i
    {
      i := i + 1;
    }
  }
}
