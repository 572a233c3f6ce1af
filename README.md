# cobra-prompt in Dafny

cobra-prompt wraps a cobra command tree in an interactive go-prompt shell. This project models
the core, `cobra_prompt.go`. That covers:

- the `CobraPrompt` object: its root command, its prompt prefix and its flag-value policy;
- the **executor**, which splits a line, resets every flag of the tree to its default and hands
  the words to the tree;
- the **completer**, which runs on every keystroke:
  - it splits the buffer into words, the previous word (`prev`) and the word being typed (`curr`);
  - it finds the command the words lead to;
  - it offers, in this order, the matching subcommands and the flag values the policy proposes;
  - it offers the matching flag names only when no value was proposed.

Files:

- `results.dfy` (`Results`): the success-or-failure value the foreign calls return.
- `tokenizer.dfy` (`Tokenizer`): `splitString`. The quote-aware `shlex.Split` is a parameter.
  Go's `strings.Fields` is defined here, and its properties are proved.
- `cursor.dfy` (`Cursor`): `splitDocument`.
- `commands.dfy` (`Commands`):
  - a command is a value holding its children and references to its flags;
  - a flag is an object whose `value` is updated in place;
  - cobra's `Find` is a parameter;
  - `resetFlagValues` is a recursive method that modifies exactly the flags of the tree.
- `suggest.dfy` (`Suggest`): the suggestion lists as functions, and lemmas about them. These
  cover the default flag-value policy, the suggestion order, and when flag names are withheld.
- `prompt.dfy` (`Prompt`): the `CobraPrompt` class. Its completer and its `suggest*` loops are
  proved to build the lists `Suggest` describes.
- `example.dfy` (`Example`): the demo shell of `example/main.go` and `example/items.go` as a fixture.
  Scenario methods fix what the completer offers for concrete keystrokes and what the executor
  leaves in the flags.

Collections the source takes from cobra and pflag are modelled as sequences, in the order those
libraries yield them:

- `Commands()` sorts children by name;
- `VisitAll` visits flags sorted by name.

The model therefore lists children and flags in that order.

Some details of the code that a reader might not expect:

- The completer appends subcommands first, then flag values, then flag names (`cobra_prompt.go:99-111`).
- Children are in the order cobra's `Commands()` returns them, which is sorted by name by default, not declaration order. Flags are in the order pflag's `VisitAll` visits them, also sorted.
- The reset visits `c.Flags()` at each node (`cobra_prompt.go:232`). That is cobra's merged set of the node's local flags and the flags it inherits. The footprint is the same either way, since every inherited flag is local to an ancestor.
- A `Find` error (an unknown word) makes the completer work at the root (`cobra_prompt.go:91-95`).
- Flag values, like flag names, are only suggested for flags that are not hidden (`cobra_prompt.go:140-142`).

## Model

| member | source | states |
|---|---|---|
| Tokenizer.IsSpace | cobra_prompt.go:193 | Defines the separator of strings.Fields: Go's unicode.IsSpace, the ASCII spaces \t \n \v \f \r and ' ', U+0085, U+00A0 and the Unicode space separators. |
| Tokenizer.Fields | cobra_prompt.go:193 | Defines strings.Fields: the maximal runs of non-space characters, in order. Its properties are the Fields lemmas below. |
| Tokenizer.SplitString | cobra_prompt.go:187-196 | The words are shlex's when it succeeds. Otherwise they are the strings.Fields split: no word is empty or holds a space. |
| Tokenizer.FieldsWellFormed | cobra_prompt.go:192-194 | Every word of the fallback split is non-empty and free of whitespace. |
| Tokenizer.FieldsKeepText | cobra_prompt.go:192-194 | The fallback loses only whitespace: its words joined back together are the line with every space removed. |
| Tokenizer.WordLengthUnique | cobra_prompt.go:192-194 | A word of the fallback ends at the first whitespace, and only there. |
| Tokenizer.FieldsSeparated | cobra_prompt.go:192-194 | A whitespace character separates: splitting a + [c] + b gives the words of a followed by the words of b. |
| Tokenizer.FieldsOfWord | cobra_prompt.go:192-194 | A non-empty word without spaces splits into exactly itself. |
| Tokenizer.FieldsJoinWords | cobra_prompt.go:192-194 | Round trip: words joined by single spaces split back into the same words. |
| Tokenizer.FieldsTrailingSpace | cobra_prompt.go:192-194 | A trailing space adds no word. |
| Cursor.SplitDocument | cobra_prompt.go:198-223 | The words are splitString of the buffer. With the cursor at whitespace, curr is "" and prev is the last word ("" when there is none). With the cursor inside a word, curr is the last word and prev the one before it, each "" when missing. |
| Commands.ResolveCommand | cobra_prompt.go:91-95 | The completer works at the command Find returns, and at the root when Find reports an error. |
| Commands.Command.Flags | cobra_prompt.go:232 | Defines c.Flags(): the node's local flags followed by the ones it inherits. |
| Commands.TreeFlags | cobra_prompt.go:229-238 | Defines the reset's footprint: the flags of every node of the subtree. |
| Commands.TreeFlagsCoverSubtree | cobra_prompt.go:229-238 | Every flag of every node of the subtree lies in the reset's footprint. |
| Commands.TreeFlagsComeFromSubtree | cobra_prompt.go:229-238 | The footprint holds nothing else: each of its flags belongs to some node of the subtree. |
| Commands.ResetEach | cobra_prompt.go:232-234 | The VisitAll visitor: every flag of the list holds its default value afterwards, and nothing outside the list changes. |
| Commands.ResetFlagValues | cobra_prompt.go:229-238 | Every flag of every node of the tree holds its default value afterwards. Only those flags are modified. |
| Suggest.PrefixMatches | cobra_prompt.go:225-227 | strings.HasPrefix: prefix is at most as long as s and equals the start of s. |
| Suggest.NamesFlag | cobra_prompt.go:143-145 | A word that names a flag is "--name", or "-x" for a non-empty shorthand x. It is at least two characters long and starts with '-'. |
| Suggest.WantsValue | cobra_prompt.go:140-145 | Defines the visitor's test: the flag is not hidden and prev names it. |
| Suggest.DefaultFlagValueCompleter | cobra_prompt.go:240-251 | Nothing for a bool flag; otherwise exactly one suggestion, the flag's default, described as "default value". |
| Suggest.DefaultAnswers | cobra_prompt.go:240-251 | The default policy answers every hint whose flag is set, so it is defined on every flag of every command. |
| Suggest.CommandItems | cobra_prompt.go:121-134 | Defines the subcommand list: (name, short) of each available child whose name starts with curr, in child order. |
| Suggest.CommandSuggestions | cobra_prompt.go:121-134 | Defines suggestCommand: the subcommand list of the hint's command for its curr. |
| Suggest.CommandItemsAppend | cobra_prompt.go:121-134 | Subcommand suggestions keep child order: those for a + b are those for a followed by those for b. |
| Suggest.CommandItemsExactly | cobra_prompt.go:121-134 | A suggestion is offered if and only if it is (name, short) of an available child whose name starts with curr. |
| Suggest.CommandItemsEmptyCurr | cobra_prompt.go:121-134 | With nothing typed, every available child is offered, and no other. |
| Suggest.FlagValueItems | cobra_prompt.go:139-150 | Defines one VisitAll pass of suggestFlagValue: the policy's answers for the wanted flags, in visit order. |
| Suggest.FlagValueSuggestions | cobra_prompt.go:136-155 | Defines suggestFlagValue: the pass over the local flags followed by the pass over the inherited ones. |
| Suggest.FlagValueItemsAppend | cobra_prompt.go:136-155 | Value suggestions keep visit order: those for a + b are those for a followed by those for b. |
| Suggest.FlagValueItemsIgnoresFlag | cobra_prompt.go:146-147 | The flag the hint already carries does not change the result, because each visit sets its own flag before asking the policy. |
| Suggest.FlagValueItemsNoneWanted | cobra_prompt.go:139-150 | When prev names no visible flag, no value is suggested, whatever the policy. |
| Suggest.FlagValueItemsSkip | cobra_prompt.go:140-149 | A hidden flag, or one prev does not name, leaves the value list unchanged. |
| Suggest.DefaultFlagValueItems | cobra_prompt.go:136-155 | With the default policy, a value is offered if and only if it is the default of a visible non-bool flag that prev names, described as "default value". |
| Suggest.FlagForms | cobra_prompt.go:160-180 | Defines the forms one flag offers: none when hidden, else "--name" then "-x", each kept only if it starts with curr, with the usage as description. |
| Suggest.FlagNameItems | cobra_prompt.go:160-183 | Defines one VisitAll pass of suggestFlag: the forms of each flag in visit order. |
| Suggest.FlagNameSuggestions | cobra_prompt.go:157-185 | Defines suggestFlag: the pass over the local flags followed by the pass over the inherited ones. |
| Suggest.FlagNameItemsAppend | cobra_prompt.go:157-185 | Flag-name suggestions keep visit order over a + b. |
| Suggest.FlagNameItemsExactly | cobra_prompt.go:157-185 | A flag-name suggestion is offered if and only if it is a form ("--name", or "-x" for a non-empty shorthand) of a visible flag, starts with curr, and is described by that flag's usage. |
| Suggest.CompletionItems | cobra_prompt.go:99-111 | Defines steps 2 to 4 of the completer: subcommands, then values, then flag names only when there are no values. |
| Suggest.DefaultValueSuppressesFlagNames | cobra_prompt.go:107-111 | With the default policy, when prev names a visible non-bool flag, that flag's default is offered and every flag name is withheld. |
| Suggest.NoFlagWantedShowsFlagNames | cobra_prompt.go:107-111 | When prev names no visible flag, no value is offered and the list is the subcommands followed by the flag names. |
| Suggest.CompletionItemsVisible | cobra_prompt.go:86-114 | Nothing hidden or unavailable is ever offered. Every suggestion is an available child, the default of a flag prev names, or a form of a visible flag with its usage. |
| Prompt.HintFor | cobra_prompt.go:88-97 | Defines the hint the completer builds: the command Find resolves the words to (the root on error), no flag, the words, prev and curr. |
| Prompt.CobraPrompt.New | cobra_prompt.go:33-58 | A new prompt keeps the root command, uses the default flag-value policy, and shows the prefix "> " live. |
| Prompt.CobraPrompt.GetPrefix | cobra_prompt.go:117-119 | Returns the current prefix, and true (a live prefix). |
| Prompt.CobraPrompt.SetPromptPrefix | cobra_prompt.go:65-69 | The next prompt shows the new prefix; nothing else changes. |
| Prompt.CobraPrompt.Executor | cobra_prompt.go:71-83 | The arguments handed to SetArgs are splitString of the line. At that point every flag of the tree holds its default, and only those flags have changed. |
| Prompt.CobraPrompt.Completer | cobra_prompt.go:86-114 | The policy answers for the hint the completer builds, and the result is the subcommands, then the values, then the flag names only if no value was offered. |
| Prompt.CobraPrompt.Suggestions | cobra_prompt.go:99-111 | Steps 2 to 4 of the completer build exactly the ordered, suppressed list. |
| Prompt.CobraPrompt.SuggestCommand | cobra_prompt.go:121-134 | The loop over the children builds the subcommand list. |
| Prompt.CobraPrompt.SuggestFlagValue | cobra_prompt.go:136-155 | The two VisitAll passes build the value list: local flags first, then inherited ones. |
| Prompt.CobraPrompt.VisitAllValues | cobra_prompt.go:152-153 | One VisitAll pass appends the policy's answers for the wanted flags in visit order. The hint differs from the caller's only in its flag. |
| Prompt.CobraPrompt.Visit | cobra_prompt.go:139-150 | For a visible flag that prev names, the hint's flag is set and the policy's answer is appended; otherwise nothing is appended. |
| Prompt.CobraPrompt.SuggestFlag | cobra_prompt.go:157-185 | The two VisitAll passes build the flag-name list: local flags first, then inherited ones. |
| Prompt.CobraPrompt.VisitAllForms | cobra_prompt.go:182-183 | One VisitAll pass appends the forms of each flag in visit order. |
| Prompt.CobraPrompt.VisitForms | cobra_prompt.go:160-180 | A hidden flag adds nothing. Otherwise "--name" is added if it starts with curr, then "-x" if the shorthand is non-empty and "-x" starts with curr, both with the flag's usage. |
| Example.ChildNamed | cobra_prompt.go:92 | A stand-in for the lookup by name inside cobra's Find, used only by the fixture. The child found has the name asked for; when none is found, no child has that name. |
| Example.NewExampleTree | example/items.go:9-69 | The demo tree of newShowCommand, newAddCommand, newAddAppleCommand and newAddMelonCommand here, with the root of newRootCommand and quit of newQuitCommand (example/main.go:13-29): add (apple with color, melon with size, persistent count), quit, show, with the demo's flag names, shorthands and defaults. |
| Example.AddTreeFlags | example/items.go:27-38 | The flags under add are exactly color, count and size. |
| Example.ExampleTreeFlags | example/main.go:13-20 | The reset footprint of the demo tree is exactly its three flags. |
| Example.WordsOfLine | cobra_prompt.go:187-196 | A line of single-spaced plain words, with or without a trailing space, splits back into those words. |
| Example.WalkToApple | example/items.go:27-49 | "add apple ..." reaches apple. |
| Example.WalkStopsAtAdd | example/items.go:27-38 | "add ap" stops at add. |
| Example.AppleAfterColor | example/items.go:40-49 | At apple after "--color", exactly the default "red" is offered. |
| Example.AppleFlagForms | example/items.go:36-47 | At apple, "-" offers --color, -c, --count and -n with their usages, local flag first. |
| Example.AddPrefixAp | example/items.go:27-38 | At add, "ap" offers apple only. |
| Example.RootNothingTyped | example/main.go:13-20 | At the root with nothing typed: add, quit and show, in Commands() order. |
| Example.ColorValueAtBoundary | cobra_prompt.go:198-210 | "add apple --color " with the cursor after the space yields exactly [("red", "default value")]. |
| Example.ColorValueMidWord | cobra_prompt.go:211-221 | "add apple --color r" with the cursor after the r yields the same list, and no flag names. |
| Example.AppleFlagNames | cobra_prompt.go:157-185 | "add apple -" yields the four forms of apple's flags. |
| Example.AddSubcommandPrefix | cobra_prompt.go:121-134 | "add ap" yields [("apple", "Add apple")]. |
| Example.RootCommands | cobra_prompt.go:121-134 | An empty buffer yields add, quit and show. |
| Example.ResetBetweenLines | cobra_prompt.go:71-83 | Whatever a command's action left in color and count, each next line starts from "red" and "1". |
| Example.PromptPrefix | example/main.go:47-51 | The prefix reads "> " after New and ">> " after SetPromptPrefix, both live. |

## Left out

- Run (`cobra_prompt.go:61-63`), the go-prompt options set in New (`cobra_prompt.go:41-44`) and the raw console writer of `writer.go`: terminal I/O.
- `Execute`, and the printing of its error, in the executor: they run the user's command actions. The model stops at the arguments handed to `SetArgs`, in the state `Execute` starts from.
- `shlex.Split` is a parameter (`Lexer`) and cobra's `Find` is a parameter (`Finder`); neither library is modelled. The demo scenarios use whitespace splitting and exact-name lookup as stand-ins.
- Commands.ResetFlagValues: `f.Value.Set(f.DefValue)` (`cobra_prompt.go:233`) is modelled as storing the default string. pflag's parsing of values, and a `Set` that fails, are not modelled. This makes the reset property stronger than the code's. pflag's slice-valued flags append on every `Set` once they have been changed, so the code does not restore them to their default. `Set` also leaves the flag's `Changed` mark set, and the model has no such mark.
- cobra and pflag sort children and flags; the model takes the sequences to be in that order already.
- The flag set `c.Flags()` that the reset visits is modelled as the local flags followed by the inherited ones. Order does not matter there.
- Prompt.CobraPrompt.Valid: the policy is always the default one. `SetFlagValueCompleter`, called at `example/main.go:52`, is not defined in `cobra_prompt.go` and is not part of this model. So the demo's own policy (green/red for color) is not installed, and the scenarios use the default policy.
- The suggestion lemmas in `Suggest` that mention a policy hold for any policy defined on hints with a flag. Only the default policy is proved about in detail.
- cobra adds a `help` command and a `--help` flag to the tree during `Execute`. The fixture tree does not include them.
- Go's `append` on a nil or shared slice and the aliasing of the `hint` copy inside the visitors are value semantics in the model.
