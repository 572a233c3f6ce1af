/**
 * The CobraPrompt object of cobra_prompt.go: the root command, the prompt prefix it shows and
 * the flag-value policy, with the completer and executor the terminal calls. The helpers that
 * build suggestion lists loop over children and flags the way the source's for loops and
 * VisitAll visitors do, and each is proved to build the list its Suggest function describes.
 */
module Prompt {
  import opened Tokenizer
  import opened Cursor
  import opened Commands
  import opened Suggest

  /** The hint the completer builds for a document: no flag yet, the words, prev and curr. */
  function HintFor(shlex: Lexer, find: Finder, root: Command, d: Document): Hint {
    var ctx := SplitDocument(shlex, d);
    Hint(ResolveCommand(find, root, ctx.words), null, ctx.words, ctx.prev, ctx.curr)
  }

  class CobraPrompt {
    const rootCmd: Command
    var promptPrefix: string
    const flagValueCompleter: FlagValueCompleter

    /** The policy in use is the default one (SetFlagValueCompleter is not part of this model). */
    ghost predicate Valid() {
      flagValueCompleter == DefaultFlagValueCompleter
    }

    /** New: the prefix starts as "> " and the default flag-value policy is installed. */
    constructor New(rootCmd: Command)
      ensures Valid()
      ensures this.rootCmd == rootCmd
      ensures GetPrefix() == ("> ", true)
    {
      this.rootCmd := rootCmd;
      promptPrefix := "> ";
      flagValueCompleter := DefaultFlagValueCompleter;
    }

    /** getPrefix: the current prefix, and true so that the terminal asks again before each line. */
    function GetPrefix(): (r: (string, bool))
      reads this
      ensures r.1
      ensures r.0 == promptPrefix
    {
      (promptPrefix, true)
    }

    /** SetPromptPrefix: the next prompt shows prefix; nothing else changes. */
    method SetPromptPrefix(prefix: string)
      modifies this`promptPrefix
      ensures GetPrefix() == (prefix, true)
    {
      promptPrefix := prefix;
    }

    /**
     * executor: the line is split, then every flag of the tree is reset to its default, and only
     * then are the words handed to the tree (SetArgs) and the tree executed; args is what
     * SetArgs receives, in the state Execute starts from.
     */
    method Executor(shlex: Lexer, line: string) returns (args: seq<string>)
      modifies TreeFlags(rootCmd)
      ensures args == SplitString(shlex, line)
      ensures forall f :: f in TreeFlags(rootCmd) ==> f.value == f.defValue
    {
      args := SplitString(shlex, line);
      ResetFlagValues(rootCmd);
    }

    /** completer: subcommands, then flag values, then flag names only if no value was offered. */
    method Completer(shlex: Lexer, find: Finder, d: Document) returns (items: seq<Suggestion>)
      requires Valid()
      ensures Answers(flagValueCompleter, HintFor(shlex, find, rootCmd, d))
      ensures items == CompletionItems(flagValueCompleter, HintFor(shlex, find, rootCmd, d))
    {
      var ctx := SplitDocument(shlex, d);
      var cmd := rootCmd;
      var found := find(cmd, ctx.words);
      if found.Ok? {
        cmd := found.value;
      }
      var hint := Hint(cmd, null, ctx.words, ctx.prev, ctx.curr);
      assert hint == HintFor(shlex, find, rootCmd, d);
      DefaultAnswers(hint);

      items := Suggestions(hint);
    }

    /** Steps 2 to 4 of completer: join the three lists, flag names only when no value was offered. */
    method Suggestions(hint: Hint) returns (items: seq<Suggestion>)
      requires Answers(flagValueCompleter, hint)
      ensures items == CompletionItems(flagValueCompleter, hint)
    {
      items := [];
      var commandItems := SuggestCommand(hint);
      items := items + commandItems;
      assert items == CommandSuggestions(hint);
      var flagValueItems := SuggestFlagValue(hint);
      items := items + flagValueItems;
      if |flagValueItems| == 0 {
        var flagItems := SuggestFlag(hint);
        items := items + flagItems;
      }
    }

    /** suggestCommand: the available children whose name starts with curr, in child order. */
    method SuggestCommand(hint: Hint) returns (items: seq<Suggestion>)
      ensures items == CommandSuggestions(hint)
    {
      items := [];
      var children := hint.cmd.children;
      for i := 0 to |children|
        invariant items == CommandItems(children[..i], hint.curr)
      {
        var c := children[i];
        CommandItemsAppend(children[..i], [c], hint.curr);
        assert children[..i + 1] == children[..i] + [c];
        if !c.available {
          continue;
        }
        if PrefixMatches(c.name, hint.curr) {
          items := items + [Suggestion(c.name, c.short)];
        }
      }
      assert children[..|children|] == children;
    }

    /** suggestFlagValue: the policy's answers for each visible flag prev names, local flags first. */
    method SuggestFlagValue(hint: Hint) returns (items: seq<Suggestion>)
      requires Answers(flagValueCompleter, hint)
      ensures items == FlagValueSuggestions(flagValueCompleter, hint)
    {
      var h;
      h, items := VisitAllValues(hint, hint.cmd.localFlags, []);
      FlagValueItemsIgnoresFlag(flagValueCompleter, hint, h.flag, hint.cmd.inheritedFlags);
      h, items := VisitAllValues(h, hint.cmd.inheritedFlags, items);
    }

    /** VisitAll with the visitor of suggestFlagValue: the hint's flag is the last one visited. */
    method VisitAllValues(hint: Hint, flags: seq<Flag>, items: seq<Suggestion>) returns (hint': Hint, items': seq<Suggestion>)
      requires AnswersFor(flagValueCompleter, hint, flags)
      ensures hint' == hint.(flag := hint'.flag)
      ensures items' == items + FlagValueItems(flagValueCompleter, hint, flags)
    {
      hint', items' := hint, items;
      for k := 0 to |flags|
        invariant hint' == hint.(flag := hint'.flag)
        invariant items' == items + FlagValueItems(flagValueCompleter, hint, flags[..k])
      {
        var f := flags[k];
        assert flags[..k + 1] == flags[..k] + [f];
        assert AnswersFor(flagValueCompleter, hint, flags[..k]) && AnswersFor(flagValueCompleter, hint, [f]);
        FlagValueItemsAppend(flagValueCompleter, hint, flags[..k], [f]);
        hint', items' := Visit(hint', f, items');
      }
      assert flags[..|flags|] == flags;
    }

    /** The visitor of suggestFlagValue for one flag: if prev names it, set hint.Flag and ask the policy. */
    method Visit(hint: Hint, f: Flag, items: seq<Suggestion>) returns (hint': Hint, items': seq<Suggestion>)
      requires flagValueCompleter.requires(hint.(flag := f))
      ensures WantsValue(f, hint.prev) ==> hint' == hint.(flag := f)
      ensures !WantsValue(f, hint.prev) ==> hint' == hint
      ensures items' == items + (if WantsValue(f, hint.prev) then flagValueCompleter(hint.(flag := f)) else [])
    {
      hint', items' := hint, items;
      if f.hidden {
        return;
      }
      var name := "--" + f.name;
      var shorthand := "-" + f.shorthand;
      if name == hint.prev || (f.shorthand != "" && shorthand == hint.prev) {
        hint' := hint.(flag := f);
        var valueItems := flagValueCompleter(hint');
        items' := items + valueItems;
      }
    }

    /** suggestFlag: the forms of the visible flags that start with curr, local flags first. */
    method SuggestFlag(hint: Hint) returns (items: seq<Suggestion>)
      ensures items == FlagNameSuggestions(hint)
    {
      items := VisitAllForms(hint.cmd.localFlags, hint.curr, []);
      items := VisitAllForms(hint.cmd.inheritedFlags, hint.curr, items);
    }

    /** VisitAll with the visitor of suggestFlag. */
    static method VisitAllForms(flags: seq<Flag>, curr: string, items: seq<Suggestion>) returns (items': seq<Suggestion>)
      ensures items' == items + FlagNameItems(flags, curr)
    {
      items' := items;
      for k := 0 to |flags|
        invariant items' == items + FlagNameItems(flags[..k], curr)
      {
        assert flags[..k + 1] == flags[..k] + [flags[k]];
        FlagNameItemsAppend(flags[..k], [flags[k]], curr);
        items' := VisitForms(flags[k], curr, items');
      }
      assert flags[..|flags|] == flags;
    }

    /** The visitor of suggestFlag for one flag. */
    static method VisitForms(f: Flag, curr: string, items: seq<Suggestion>) returns (items': seq<Suggestion>)
      ensures items' == items + FlagForms(f, curr)
    {
      items' := items;
      if f.hidden {
        return;
      }
      var name := "--" + f.name;
      if PrefixMatches(name, curr) {
        items' := items' + [Suggestion(name, f.usage)];
      }
      if f.shorthand != "" {
        var shorthand := "-" + f.shorthand;
        if PrefixMatches(shorthand, curr) {
          items' := items' + [Suggestion(shorthand, f.usage)];
        }
      }
    }
  }
}
