/**
 * The suggestion engine of cobra_prompt.go as pure functions: the three lists the completer
 * joins (subcommands, flag values, flag names), the default flag-value policy, and the way the
 * completer orders and suppresses them. The loops that build the same lists are in Prompt.
 */
module Suggest {
  import opened Commands

  /** A go-prompt suggestion: the text offered and its description. */
  datatype Suggestion = Suggestion(text: string, description: string)

  /** CompletionHint: the command worked at, the flag whose value is wanted (or null), the words, prev and curr. */
  datatype Hint = Hint(cmd: Command, flag: Flag?, args: seq<string>, prev: string, curr: string)

  /** FlagValueCompleter: the pluggable policy; it is only ever asked about a hint whose flag is set. */
  type FlagValueCompleter = Hint --> seq<Suggestion>

  /** The policy accepts the hint with its flag set to any of flags. */
  ghost predicate AnswersFor(fvc: FlagValueCompleter, hint: Hint, flags: seq<Flag>) {
    forall i :: 0 <= i < |flags| ==> fvc.requires(hint.(flag := flags[i]))
  }

  /** The policy accepts the hint with its flag set to any flag visible at the hint's command. */
  ghost predicate Answers(fvc: FlagValueCompleter, hint: Hint) {
    AnswersFor(fvc, hint, hint.cmd.localFlags) && AnswersFor(fvc, hint, hint.cmd.inheritedFlags)
  }

  /** prefixMatches: strings.HasPrefix(s, prefix). */
  predicate PrefixMatches(s: string, prefix: string)
    ensures PrefixMatches(s, prefix) <==> |prefix| <= |s| && s[..|prefix|] == prefix
  {
    prefix <= s
  }

  /** The word names f: it is "--name", or "-x" for a shorthand x that is not empty. */
  predicate NamesFlag(f: Flag, word: string)
    ensures NamesFlag(f, word) ==> |word| >= 2 && word[0] == '-'
  {
    "--" + f.name == word || (f.shorthand != "" && "-" + f.shorthand == word)
  }

  /** The flag whose value prev asks for: a visible flag that prev names. */
  predicate WantsValue(f: Flag, prev: string) {
    !f.hidden && NamesFlag(f, prev)
  }

  /** defaultFlagValueCompleter: nothing for a bool flag, else the flag's default. */
  function DefaultFlagValueCompleter(hint: Hint): (r: seq<Suggestion>)
    requires hint.flag != null
    ensures r == [] <==> hint.flag.typeName == "bool"
    ensures |r| <= 1
    ensures forall s :: s in r ==> s == Suggestion(hint.flag.defValue, "default value")
  {
    if hint.flag.typeName == "bool" then []
    else [Suggestion(hint.flag.defValue, "default value")]
  }


  // ---------------------------------------------------------------------------------------
  // suggestCommand

  /** What suggestCommand keeps of the children cs, in their order. */
  function CommandItems(cs: seq<Command>, curr: string): seq<Suggestion> {
    if cs == [] then []
    else
      (if cs[0].available && PrefixMatches(cs[0].name, curr)
       then [Suggestion(cs[0].name, cs[0].short)] else []) +
      CommandItems(cs[1..], curr)
  }

  function CommandSuggestions(hint: Hint): seq<Suggestion> {
    CommandItems(hint.cmd.children, hint.curr)
  }

  /** The list for a + b is the list for a followed by the list for b: child order is kept. */
  lemma {:induction false} CommandItemsAppend(a: seq<Command>, b: seq<Command>, curr: string)
    ensures CommandItems(a + b, curr) == CommandItems(a, curr) + CommandItems(b, curr)
  {
    if a == [] {
      assert a + b == b;
    } else {
      assert (a + b)[1..] == a[1..] + b;
      CommandItemsAppend(a[1..], b, curr);
    }
  }

  /** A suggestion is offered exactly for an available child whose name starts with curr. */
  lemma {:induction false} CommandItemsExactly(cs: seq<Command>, curr: string, s: Suggestion)
    ensures s in CommandItems(cs, curr) <==>
      exists c :: c in cs && c.available && PrefixMatches(c.name, curr) && s == Suggestion(c.name, c.short)
  {
    if cs != [] {
      CommandItemsExactly(cs[1..], curr, s);
      assert forall c :: c in cs <==> c == cs[0] || c in cs[1..];
    }
  }

  /** With nothing typed every available child is offered, and no other. */
  lemma CommandItemsEmptyCurr(cs: seq<Command>, s: Suggestion)
    ensures s in CommandItems(cs, "") <==>
      exists c :: c in cs && c.available && s == Suggestion(c.name, c.short)
  {
    CommandItemsExactly(cs, "", s);
  }

  // ---------------------------------------------------------------------------------------
  // suggestFlagValue

  /** What the visitor of suggestFlagValue collects over flags: each wanted flag asks the policy. */
  function FlagValueItems(fvc: FlagValueCompleter, hint: Hint, flags: seq<Flag>): seq<Suggestion>
    requires AnswersFor(fvc, hint, flags)
  {
    if flags == [] then []
    else
      (if WantsValue(flags[0], hint.prev) then fvc(hint.(flag := flags[0])) else []) +
      FlagValueItems(fvc, hint, flags[1..])
  }

  /** Local flags are visited first, then inherited ones. */
  function FlagValueSuggestions(fvc: FlagValueCompleter, hint: Hint): seq<Suggestion>
    requires Answers(fvc, hint)
  {
    FlagValueItems(fvc, hint, hint.cmd.localFlags) + FlagValueItems(fvc, hint, hint.cmd.inheritedFlags)
  }

  lemma {:induction false} FlagValueItemsAppend(fvc: FlagValueCompleter, hint: Hint, a: seq<Flag>, b: seq<Flag>)
    requires AnswersFor(fvc, hint, a) && AnswersFor(fvc, hint, b)
    ensures AnswersFor(fvc, hint, a + b)
    ensures FlagValueItems(fvc, hint, a + b) == FlagValueItems(fvc, hint, a) + FlagValueItems(fvc, hint, b)
  {
    if a == [] {
      assert a + b == b;
    } else {
      assert (a + b)[1..] == a[1..] + b;
      FlagValueItemsAppend(fvc, hint, a[1..], b);
    }
  }

  /** The list does not depend on which flag the hint already carries: each visit sets its own. */
  lemma {:induction false} FlagValueItemsIgnoresFlag(fvc: FlagValueCompleter, hint: Hint, g: Flag?, flags: seq<Flag>)
    requires AnswersFor(fvc, hint, flags)
    ensures AnswersFor(fvc, hint.(flag := g), flags)
    ensures FlagValueItems(fvc, hint.(flag := g), flags) == FlagValueItems(fvc, hint, flags)
  {
    assert forall f: Flag :: hint.(flag := g).(flag := f) == hint.(flag := f);
    if flags != [] {
      FlagValueItemsIgnoresFlag(fvc, hint, g, flags[1..]);
    }
  }

  /** When prev names no visible flag (an unknown or a hidden one), no value is suggested. */
  lemma {:induction false} FlagValueItemsNoneWanted(fvc: FlagValueCompleter, hint: Hint, flags: seq<Flag>)
    requires AnswersFor(fvc, hint, flags)
    requires forall f :: f in flags ==> !WantsValue(f, hint.prev)
    ensures FlagValueItems(fvc, hint, flags) == []
  {
    if flags != [] {
      FlagValueItemsNoneWanted(fvc, hint, flags[1..]);
    }
  }

  /** A flag that prev does not name, or that is hidden, does not change the list. */
  lemma {:induction false} FlagValueItemsSkip(fvc: FlagValueCompleter, hint: Hint, a: seq<Flag>, f: Flag, b: seq<Flag>)
    requires AnswersFor(fvc, hint, a) && AnswersFor(fvc, hint, [f]) && AnswersFor(fvc, hint, b)
    requires !WantsValue(f, hint.prev)
    ensures AnswersFor(fvc, hint, a + [f] + b) && AnswersFor(fvc, hint, a + b)
    ensures FlagValueItems(fvc, hint, a + [f] + b) == FlagValueItems(fvc, hint, a + b)
  {
    FlagValueItemsAppend(fvc, hint, a + [f], b);
    FlagValueItemsAppend(fvc, hint, a, [f]);
    FlagValueItemsAppend(fvc, hint, a, b);
    assert [f][1..] == [];
  }

  /** The default policy accepts every hint whose flag is set, so it answers for every command. */
  lemma DefaultAnswers(hint: Hint)
    ensures Answers(DefaultFlagValueCompleter, hint)
  {
    assert AnswersFor(DefaultFlagValueCompleter, hint, hint.cmd.localFlags);
    assert AnswersFor(DefaultFlagValueCompleter, hint, hint.cmd.inheritedFlags);
  }

  /** The flags whose value the default policy offers: visible, named by prev, not bool. */
  predicate DefaultOffers(f: Flag, prev: string) {
    WantsValue(f, prev) && f.typeName != "bool"
  }

  /**
   * Under the default policy the value list holds exactly the defaults of the wanted non-bool
   * flags, each described as "default value".
   */
  lemma {:induction false} DefaultFlagValueItems(hint: Hint, flags: seq<Flag>, s: Suggestion)
    ensures AnswersFor(DefaultFlagValueCompleter, hint, flags)
    ensures s in FlagValueItems(DefaultFlagValueCompleter, hint, flags) <==>
      exists f :: f in flags && DefaultOffers(f, hint.prev) && s == Suggestion(f.defValue, "default value")
  {
    if flags != [] {
      DefaultFlagValueItems(hint, flags[1..], s);
      assert forall f :: f in flags <==> f == flags[0] || f in flags[1..];
    }
  }

  // ---------------------------------------------------------------------------------------
  // suggestFlag

  /** What the visitor of suggestFlag emits for one flag: its long form, then its shorthand. */
  function FlagForms(f: Flag, curr: string): seq<Suggestion> {
    if f.hidden then []
    else
      (if PrefixMatches("--" + f.name, curr) then [Suggestion("--" + f.name, f.usage)] else []) +
      (if f.shorthand != "" && PrefixMatches("-" + f.shorthand, curr)
       then [Suggestion("-" + f.shorthand, f.usage)] else [])
  }

  function FlagNameItems(flags: seq<Flag>, curr: string): seq<Suggestion> {
    if flags == [] then [] else FlagForms(flags[0], curr) + FlagNameItems(flags[1..], curr)
  }

  function FlagNameSuggestions(hint: Hint): seq<Suggestion> {
    FlagNameItems(hint.cmd.localFlags, hint.curr) + FlagNameItems(hint.cmd.inheritedFlags, hint.curr)
  }

  lemma {:induction false} FlagNameItemsAppend(a: seq<Flag>, b: seq<Flag>, curr: string)
    ensures FlagNameItems(a + b, curr) == FlagNameItems(a, curr) + FlagNameItems(b, curr)
  {
    if a == [] {
      assert a + b == b;
    } else {
      assert (a + b)[1..] == a[1..] + b;
      FlagNameItemsAppend(a[1..], b, curr);
    }
  }

  /** The form text of a flag f: "--name" or, when it has one, "-x". */
  predicate IsFormOf(text: string, f: Flag) {
    text == "--" + f.name || (f.shorthand != "" && text == "-" + f.shorthand)
  }

  /**
   * A flag-name suggestion is offered exactly for a form of a visible flag that starts with
   * curr, described by that flag's usage text; a hidden flag is never offered.
   */
  lemma {:induction false} FlagNameItemsExactly(flags: seq<Flag>, curr: string, s: Suggestion)
    ensures s in FlagNameItems(flags, curr) <==>
      exists f :: f in flags && !f.hidden && IsFormOf(s.text, f) && PrefixMatches(s.text, curr) && s.description == f.usage
  {
    if flags != [] {
      FlagNameItemsExactly(flags[1..], curr, s);
      assert forall f :: f in flags <==> f == flags[0] || f in flags[1..];
    }
  }

  // ---------------------------------------------------------------------------------------
  // completer

  /** The completer's answer: subcommands, flag values, then flag names unless values were found. */
  function CompletionItems(fvc: FlagValueCompleter, hint: Hint): seq<Suggestion>
    requires Answers(fvc, hint)
  {
    var values := FlagValueSuggestions(fvc, hint);
    CommandSuggestions(hint) + values + (if values == [] then FlagNameSuggestions(hint) else [])
  }

  /**
   * With the default policy, when prev names a visible non-bool flag of the command, that
   * flag's default is offered and every flag-name suggestion is withheld.
   */
  lemma DefaultValueSuppressesFlagNames(hint: Hint, f: Flag)
    requires f in hint.cmd.Flags() && DefaultOffers(f, hint.prev)
    ensures Answers(DefaultFlagValueCompleter, hint)
    ensures Suggestion(f.defValue, "default value") in FlagValueSuggestions(DefaultFlagValueCompleter, hint)
    ensures CompletionItems(DefaultFlagValueCompleter, hint) ==
      CommandSuggestions(hint) + FlagValueSuggestions(DefaultFlagValueCompleter, hint)
  {
    var s := Suggestion(f.defValue, "default value");
    DefaultFlagValueItems(hint, hint.cmd.localFlags, s);
    DefaultFlagValueItems(hint, hint.cmd.inheritedFlags, s);
  }

  /**
   * When prev names no visible flag of the command (whatever the policy), no value is offered
   * and the completer falls through to the flag names.
   */
  lemma NoFlagWantedShowsFlagNames(fvc: FlagValueCompleter, hint: Hint)
    requires Answers(fvc, hint)
    requires forall f :: f in hint.cmd.Flags() ==> !WantsValue(f, hint.prev)
    ensures FlagValueSuggestions(fvc, hint) == []
    ensures CompletionItems(fvc, hint) == CommandSuggestions(hint) + FlagNameSuggestions(hint)
  {
    FlagValueItemsNoneWanted(fvc, hint, hint.cmd.localFlags);
    FlagValueItemsNoneWanted(fvc, hint, hint.cmd.inheritedFlags);
  }

  /**
   * Nothing hidden is ever offered: under the default policy every suggestion is an available
   * child, the default of a flag prev names, or a form of a visible flag, whatever curr is.
   */
  lemma CompletionItemsVisible(hint: Hint, s: Suggestion)
    requires Answers(DefaultFlagValueCompleter, hint)
    requires s in CompletionItems(DefaultFlagValueCompleter, hint)
    ensures
      (exists c :: c in hint.cmd.children && c.available && s == Suggestion(c.name, c.short)) ||
      (exists f :: f in hint.cmd.Flags() && DefaultOffers(f, hint.prev) && s == Suggestion(f.defValue, "default value")) ||
      (exists f :: f in hint.cmd.Flags() && !f.hidden && IsFormOf(s.text, f) && s.description == f.usage)
  {
    var cmd := hint.cmd;
    CommandItemsExactly(cmd.children, hint.curr, s);
    DefaultFlagValueItems(hint, cmd.localFlags, s);
    DefaultFlagValueItems(hint, cmd.inheritedFlags, s);
    FlagNameItemsExactly(cmd.localFlags, hint.curr, s);
    FlagNameItemsExactly(cmd.inheritedFlags, hint.curr, s);
    assert forall f :: f in cmd.Flags() <==> f in cmd.localFlags || f in cmd.inheritedFlags;
  }
}
