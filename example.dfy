/**
 * The demo shell of example/main.go and example/items.go as a fixture: a root with the
 * commands add, quit and show; add has apple and melon and a persistent count/-n flag;
 * apple has color/-c (default "red") and melon size/-s (default "3"). Children are listed in
 * the order cobra's Commands() returns them (sorted by name). The scenarios below run the
 * completer and the executor on it.
 */
module Example {
  import opened Results
  import opened Tokenizer
  import opened Cursor
  import opened Commands
  import opened Suggest
  import opened Prompt

  /** A stand-in for shlex.Split on lines without quotes or escapes: the whitespace split. */
  function PlainLexer(s: string): Result<seq<string>> {
    Ok(Fields(s))
  }

  /** The child of c named name, if any. */
  function ChildNamed(cs: seq<Command>, name: string): (r: Result<Command>)
    ensures r.Ok? ==> r.value in cs && r.value.name == name
    ensures r.Err? ==> forall c :: c in cs ==> c.name != name
  {
    if cs == [] then Err("unknown command")
    else if cs[0].name == name then Ok(cs[0])
    else ChildNamed(cs[1..], name)
  }

  /** A stand-in for cobra's Find on this fixture: follow exact child names as far as they go. */
  function Walk(c: Command, words: seq<string>): Command {
    if words == [] then c
    else match ChildNamed(c.children, words[0])
      case Ok(child) => Walk(child, words[1..])
      case Err(_) => c
  }

  function WalkFinder(c: Command, words: seq<string>): Result<Command> {
    Ok(Walk(c, words))
  }

  // ---------------------------------------------------------------------------------------
  // The tree of example/main.go and example/items.go

  /** The metadata the demo declares for its three flags. */
  predicate ExampleFlags(color: Flag, count: Flag, size: Flag) {
    color.name == "color" && color.shorthand == "c" && !color.hidden && color.typeName == "string" &&
    color.defValue == "red" && color.usage == "Apple color" &&
    count.name == "count" && count.shorthand == "n" && !count.hidden && count.typeName == "int" &&
    count.defValue == "1" && count.usage == "Number of items to add" &&
    size.name == "size" && size.shorthand == "s" && !size.hidden && size.typeName == "int" &&
    size.defValue == "3"
  }

  function Apple(color: Flag, count: Flag): Command {
    Command("apple", "Add apple", true, [], [color], [count])
  }

  function Melon(size: Flag, count: Flag): Command {
    Command("melon", "Add melon", true, [], [size], [count])
  }

  /** add declares count as a persistent flag, so apple and melon inherit it. */
  function Add(color: Flag, count: Flag, size: Flag): Command {
    Command("add", "Add an item", true, [Apple(color, count), Melon(size, count)], [count], [])
  }

  const Quit: Command := Command("quit", "Quit program", true, [], [], [])

  const Show: Command := Command("show", "Show items", true, [], [], [])

  function ExampleTree(color: Flag, count: Flag, size: Flag): Command {
    Command("", "", true, [Add(color, count, size), Quit, Show], [], [])
  }

  method NewExampleTree() returns (root: Command, color: Flag, count: Flag, size: Flag)
    ensures fresh(color) && fresh(count) && fresh(size)
    ensures ExampleFlags(color, count, size)
    ensures root == ExampleTree(color, count, size)
  {
    color := new Flag("color", "c", false, "string", "red", "Apple color");
    count := new Flag("count", "n", false, "int", "1", "Number of items to add");
    size := new Flag("size", "s", false, "int", "3", "Melon size in kilograms");
    root := ExampleTree(color, count, size);
  }

  /** The flags of a node with no children are its own. */
  lemma TreeFlagsLeaf(c: Command)
    requires c.children == []
    ensures TreeFlags(c) == set f | f in c.Flags()
  {
  }

  /** The flag objects below add are its three flags. */
  lemma AddTreeFlags(color: Flag, count: Flag, size: Flag)
    ensures TreeFlags(Add(color, count, size)) == {color, count, size}
  {
    var add, apple, melon := Add(color, count, size), Apple(color, count), Melon(size, count);
    TreeFlagsLeaf(apple);
    TreeFlagsLeaf(melon);
    assert add.children[0] == apple && add.children[1] == melon;
    forall f ensures f in TreeFlags(add) <==> f in {color, count, size} {
      if f == color {
        assert f in TreeFlags(add.children[0]);
      } else if f == size {
        assert f in TreeFlags(add.children[1]);
      } else if f != count && f in TreeFlags(add) {
        var i :| 0 <= i < 2 && f in TreeFlags(add.children[i]);
      }
    }
  }

  /** The flag objects of the whole tree are its three flags. */
  lemma ExampleTreeFlags(color: Flag, count: Flag, size: Flag)
    ensures TreeFlags(ExampleTree(color, count, size)) == {color, count, size}
  {
    var root, add := ExampleTree(color, count, size), Add(color, count, size);
    AddTreeFlags(color, count, size);
    TreeFlagsLeaf(Quit);
    TreeFlagsLeaf(Show);
    assert root.children[0] == add && root.children[1] == Quit && root.children[2] == Show;
    forall f ensures f in TreeFlags(root) <==> f in TreeFlags(add) {
      if f in TreeFlags(add) {
        assert f in TreeFlags(root.children[0]);
      }
    }
  }

  // ---------------------------------------------------------------------------------------
  // Lines and the commands they reach

  /** The words of a line written as words separated by single spaces, optionally ending in one. */
  lemma WordsOfLine(words: seq<string>, line: string, trailing: bool)
    requires forall w :: w in words ==> w != [] && SpaceFree(w)
    requires line == JoinWords(words) + (if trailing then " " else "")
    ensures SplitString(PlainLexer, line) == words
  {
    FieldsJoinWords(words);
    if trailing {
      FieldsTrailingSpace(JoinWords(words));
    } else {
      assert line == JoinWords(words);
    }
  }

  lemma SplitColorAtSpace()
    ensures SplitString(PlainLexer, "add apple --color ") == ["add", "apple", "--color"]
  {
    assert "add apple --color " == JoinWords(["add", "apple", "--color"]) + " ";
    WordsOfLine(["add", "apple", "--color"], "add apple --color ", true);
  }

  lemma SplitColorInWord()
    ensures SplitString(PlainLexer, "add apple --color r") == ["add", "apple", "--color", "r"]
  {
    assert "add apple --color r" == JoinWords(["add", "apple", "--color", "r"]);
    WordsOfLine(["add", "apple", "--color", "r"], "add apple --color r", false);
  }

  lemma SplitAppleDash()
    ensures SplitString(PlainLexer, "add apple -") == ["add", "apple", "-"]
  {
    assert "add apple -" == JoinWords(["add", "apple", "-"]);
    WordsOfLine(["add", "apple", "-"], "add apple -", false);
  }

  lemma SplitAddAp()
    ensures SplitString(PlainLexer, "add ap") == ["add", "ap"]
  {
    assert "add ap" == JoinWords(["add", "ap"]);
    WordsOfLine(["add", "ap"], "add ap", false);
  }

  /** The fixture's stand-in for Find takes "add apple ..." to apple, whatever follows. */
  lemma WalkToApple(color: Flag, count: Flag, size: Flag, words: seq<string>)
    requires |words| >= 2 && words[0] == "add" && words[1] == "apple"
    ensures Walk(ExampleTree(color, count, size), words) == Apple(color, count)
  {
    var root, add, apple := ExampleTree(color, count, size), Add(color, count, size), Apple(color, count);
    assert root.children[0] == add && add.children[0] == apple;
    assert ChildNamed(root.children, "add") == Ok(add);
    assert ChildNamed(add.children, "apple") == Ok(apple);
    assert words[1..][0] == "apple" && words[1..][1..] == words[2..];
    assert Walk(root, words) == Walk(add, words[1..]);
    assert Walk(add, words[1..]) == Walk(apple, words[2..]);
    assert Walk(apple, words[2..]) == apple;
  }

  /** ...and "add ap" stops at add, since no child of add is named "ap". */
  lemma WalkStopsAtAdd(color: Flag, count: Flag, size: Flag)
    ensures Walk(ExampleTree(color, count, size), ["add", "ap"]) == Add(color, count, size)
  {
    var root, add := ExampleTree(color, count, size), Add(color, count, size);
    assert ChildNamed(root.children, "add") == Ok(add);
    assert ChildNamed(add.children, "ap").Err? by {
      assert |"apple"| != |"ap"| && |"melon"| != |"ap"|;
      assert ChildNamed(add.children[2..], "ap").Err?;
    }
    assert ["add", "ap"][1..] == ["ap"] && ["ap"][1..] == [];
  }

  // ---------------------------------------------------------------------------------------
  // What the completer offers at those commands

  /** At apple, after "--color", the default policy offers the default of color and nothing else. */
  lemma AppleAfterColor(color: Flag, count: Flag, size: Flag, words: seq<string>, curr: string)
    requires ExampleFlags(color, count, size)
    ensures Answers(DefaultFlagValueCompleter, Hint(Apple(color, count), null, words, "--color", curr))
    ensures CompletionItems(DefaultFlagValueCompleter, Hint(Apple(color, count), null, words, "--color", curr)) ==
      [Suggestion("red", "default value")]
  {
    var hint := Hint(Apple(color, count), null, words, "--color", curr);
    DefaultAnswers(hint);
    assert "--" + color.name == "--color";
    assert "--" + count.name != "--color" by {
      assert ("--" + count.name)[4] == 'u';
      assert "--color"[4] == 'l';
    }
    assert "-" + count.shorthand != "--color" by {
      assert |"-" + count.shorthand| == 2;
    }
    assert FlagValueItems(DefaultFlagValueCompleter, hint, [color]) == [Suggestion("red", "default value")];
    assert FlagValueItems(DefaultFlagValueCompleter, hint, [count]) == [];
    assert CommandItems([], curr) == [];
  }

  /** At apple after "apple", neither flag is named, so no value is offered. */
  lemma AppleNoValueAfterName(color: Flag, count: Flag, size: Flag, words: seq<string>, curr: string)
    requires ExampleFlags(color, count, size)
    ensures Answers(DefaultFlagValueCompleter, Hint(Apple(color, count), null, words, "apple", curr))
    ensures FlagValueSuggestions(DefaultFlagValueCompleter, Hint(Apple(color, count), null, words, "apple", curr)) == []
  {
    var hint := Hint(Apple(color, count), null, words, "apple", curr);
    DefaultAnswers(hint);
    assert !NamesFlag(color, "apple") by {
      assert |"--" + color.name| != |"apple"| && |"-" + color.shorthand| != |"apple"|;
    }
    assert !NamesFlag(count, "apple") by {
      assert |"--" + count.name| != |"apple"| && |"-" + count.shorthand| != |"apple"|;
    }
    assert FlagValueItems(DefaultFlagValueCompleter, hint, [color]) == [];
    assert FlagValueItems(DefaultFlagValueCompleter, hint, [count]) == [];
  }

  /** "-" is a prefix of both forms of a visible flag with a shorthand. */
  lemma DashMatchesBothForms(f: Flag)
    requires !f.hidden && f.shorthand != ""
    ensures FlagForms(f, "-") == [Suggestion("--" + f.name, f.usage), Suggestion("-" + f.shorthand, f.usage)]
  {
    assert PrefixMatches("--" + f.name, "-") by {
      assert ("--" + f.name)[..1] == "-";
    }
    assert PrefixMatches("-" + f.shorthand, "-") by {
      assert ("-" + f.shorthand)[..1] == "-";
    }
  }

  /** At apple, "-" starts every form of color and of count. */
  lemma AppleDashForms(color: Flag, count: Flag, size: Flag, words: seq<string>)
    requires ExampleFlags(color, count, size)
    ensures FlagNameSuggestions(Hint(Apple(color, count), null, words, "apple", "-")) ==
      [Suggestion("--color", "Apple color"), Suggestion("-c", "Apple color"),
       Suggestion("--count", "Number of items to add"), Suggestion("-n", "Number of items to add")]
  {
    DashMatchesBothForms(color);
    DashMatchesBothForms(count);
    assert [color][1..] == [] && [count][1..] == [];
    assert FlagNameItems([color], "-") == FlagForms(color, "-");
    assert FlagNameItems([count], "-") == FlagForms(count, "-");
    assert "--" + color.name == "--color" && "-" + color.shorthand == "-c";
    assert "--" + count.name == "--count" && "-" + count.shorthand == "-n";
  }

  /** At apple, typing "-" after "apple": every form of color and of count, local flag first. */
  lemma AppleFlagForms(color: Flag, count: Flag, size: Flag, words: seq<string>)
    requires ExampleFlags(color, count, size)
    ensures Answers(DefaultFlagValueCompleter, Hint(Apple(color, count), null, words, "apple", "-"))
    ensures CompletionItems(DefaultFlagValueCompleter, Hint(Apple(color, count), null, words, "apple", "-")) ==
      [Suggestion("--color", "Apple color"), Suggestion("-c", "Apple color"),
       Suggestion("--count", "Number of items to add"), Suggestion("-n", "Number of items to add")]
  {
    AppleNoValueAfterName(color, count, size, words, "-");
    AppleDashForms(color, count, size, words);
    assert CommandItems([], "-") == [];
  }

  /** At add, typing "ap": apple is the one child offered; no flag value, no flag form matches. */
  lemma AddPrefixAp(color: Flag, count: Flag, size: Flag, words: seq<string>)
    requires ExampleFlags(color, count, size)
    ensures Answers(DefaultFlagValueCompleter, Hint(Add(color, count, size), null, words, "add", "ap"))
    ensures CompletionItems(DefaultFlagValueCompleter, Hint(Add(color, count, size), null, words, "add", "ap")) ==
      [Suggestion("apple", "Add apple")]
  {
    var add := Add(color, count, size);
    var hint := Hint(add, null, words, "add", "ap");
    DefaultAnswers(hint);
    var apple, melon := Apple(color, count), Melon(size, count);
    assert add.children == [apple, melon];
    assert PrefixMatches(apple.name, "ap");
    assert !PrefixMatches(melon.name, "ap") by {
      assert melon.name[..2] == "me";
    }
    assert CommandItems([melon], "ap") == [];
    assert CommandItems(add.children, "ap") == [Suggestion("apple", "Add apple")];
    assert !NamesFlag(count, "add") by {
      assert |"--" + count.name| != |"add"| && |"-" + count.shorthand| != |"add"|;
    }
    assert FlagValueItems(DefaultFlagValueCompleter, hint, [count]) == [];
    assert !PrefixMatches("--" + count.name, "ap") by {
      assert ("--" + count.name)[..2] == "--";
    }
    assert !PrefixMatches("-" + count.shorthand, "ap") by {
      assert ("-" + count.shorthand)[..1] == "-";
    }
    assert FlagNameItems([count], "ap") == [];
  }

  /** At the root with nothing typed: every available command, in Commands() order. */
  lemma RootNothingTyped(color: Flag, count: Flag, size: Flag)
    ensures Answers(DefaultFlagValueCompleter, Hint(ExampleTree(color, count, size), null, [], "", ""))
    ensures CompletionItems(DefaultFlagValueCompleter, Hint(ExampleTree(color, count, size), null, [], "", "")) ==
      [Suggestion("add", "Add an item"), Suggestion("quit", "Quit program"), Suggestion("show", "Show items")]
  {
    var root := ExampleTree(color, count, size);
    DefaultAnswers(Hint(root, null, [], "", ""));
    var cs := root.children;
    assert cs == [cs[0]] + [cs[1]] + [cs[2]];
    CommandItemsAppend([cs[0]] + [cs[1]], [cs[2]], "");
    CommandItemsAppend([cs[0]], [cs[1]], "");
  }

  // ---------------------------------------------------------------------------------------
  // Whole keystrokes: document to suggestions

  /** The hint for a document whose text splits into words that Find resolves to cmd. */
  lemma HintOfDocument(d: Document, words: seq<string>, cmd: Command, color: Flag, count: Flag, size: Flag)
    requires SplitString(PlainLexer, d.text) == words
    requires Walk(ExampleTree(color, count, size), words) == cmd
    ensures HintFor(PlainLexer, WalkFinder, ExampleTree(color, count, size), d) ==
      Hint(cmd, null, words, SplitDocument(PlainLexer, d).prev, SplitDocument(PlainLexer, d).curr)
  {
  }

  /** "add apple --color " with the cursor after the space. */
  lemma ColorValueAtSpace(color: Flag, count: Flag, size: Flag)
    requires ExampleFlags(color, count, size)
    ensures Answers(DefaultFlagValueCompleter, HintFor(PlainLexer, WalkFinder, ExampleTree(color, count, size), Document("add apple --color ", "")))
    ensures CompletionItems(DefaultFlagValueCompleter, HintFor(PlainLexer, WalkFinder, ExampleTree(color, count, size), Document("add apple --color ", ""))) ==
      [Suggestion("red", "default value")]
  {
    var d := Document("add apple --color ", "");
    var words := ["add", "apple", "--color"];
    SplitColorAtSpace();
    WalkToApple(color, count, size, words);
    HintOfDocument(d, words, Apple(color, count), color, count, size);
    assert SplitDocument(PlainLexer, d) == Context(words, "--color", "");
    AppleAfterColor(color, count, size, words, "");
  }

  /** "add apple --color r" with the cursor after the r. */
  lemma ColorValueInWord(color: Flag, count: Flag, size: Flag)
    requires ExampleFlags(color, count, size)
    ensures Answers(DefaultFlagValueCompleter, HintFor(PlainLexer, WalkFinder, ExampleTree(color, count, size), Document("add apple --color r", "r")))
    ensures CompletionItems(DefaultFlagValueCompleter, HintFor(PlainLexer, WalkFinder, ExampleTree(color, count, size), Document("add apple --color r", "r"))) ==
      [Suggestion("red", "default value")]
  {
    var d := Document("add apple --color r", "r");
    var words := ["add", "apple", "--color", "r"];
    SplitColorInWord();
    WalkToApple(color, count, size, words);
    HintOfDocument(d, words, Apple(color, count), color, count, size);
    assert SplitDocument(PlainLexer, d) == Context(words, "--color", "r");
    AppleAfterColor(color, count, size, words, "r");
  }

  /** "add apple -" with the cursor after the dash. */
  lemma AppleDashDocument(color: Flag, count: Flag, size: Flag)
    requires ExampleFlags(color, count, size)
    ensures Answers(DefaultFlagValueCompleter, HintFor(PlainLexer, WalkFinder, ExampleTree(color, count, size), Document("add apple -", "-")))
    ensures CompletionItems(DefaultFlagValueCompleter, HintFor(PlainLexer, WalkFinder, ExampleTree(color, count, size), Document("add apple -", "-"))) ==
      [Suggestion("--color", "Apple color"), Suggestion("-c", "Apple color"),
       Suggestion("--count", "Number of items to add"), Suggestion("-n", "Number of items to add")]
  {
    var words := ["add", "apple", "-"];
    SplitAppleDash();
    WalkToApple(color, count, size, words);
    AppleFlagForms(color, count, size, words);
    assert HintFor(PlainLexer, WalkFinder, ExampleTree(color, count, size), Document("add apple -", "-")) ==
      Hint(Apple(color, count), null, words, "apple", "-");
  }

  /** "add ap" with the cursor after the p. */
  lemma AddApDocument(color: Flag, count: Flag, size: Flag)
    requires ExampleFlags(color, count, size)
    ensures Answers(DefaultFlagValueCompleter, HintFor(PlainLexer, WalkFinder, ExampleTree(color, count, size), Document("add ap", "ap")))
    ensures CompletionItems(DefaultFlagValueCompleter, HintFor(PlainLexer, WalkFinder, ExampleTree(color, count, size), Document("add ap", "ap"))) ==
      [Suggestion("apple", "Add apple")]
  {
    var words := ["add", "ap"];
    SplitAddAp();
    WalkStopsAtAdd(color, count, size);
    AddPrefixAp(color, count, size, words);
    assert HintFor(PlainLexer, WalkFinder, ExampleTree(color, count, size), Document("add ap", "ap")) ==
      Hint(Add(color, count, size), null, words, "add", "ap");
  }

  /** An empty line. */
  lemma EmptyDocument(color: Flag, count: Flag, size: Flag)
    ensures Answers(DefaultFlagValueCompleter, HintFor(PlainLexer, WalkFinder, ExampleTree(color, count, size), Document("", "")))
    ensures CompletionItems(DefaultFlagValueCompleter, HintFor(PlainLexer, WalkFinder, ExampleTree(color, count, size), Document("", ""))) ==
      [Suggestion("add", "Add an item"), Suggestion("quit", "Quit program"), Suggestion("show", "Show items")]
  {
    var root := ExampleTree(color, count, size);
    assert SplitString(PlainLexer, "") == [];
    assert Walk(root, []) == root;
    RootNothingTyped(color, count, size);
    assert HintFor(PlainLexer, WalkFinder, root, Document("", "")) == Hint(root, null, [], "", "");
  }

  // ---------------------------------------------------------------------------------------
  // The shell of example/main.go

  /** "add apple --color " with the cursor after the space: only the default of color is offered. */
  method ColorValueAtBoundary() returns (items: seq<Suggestion>)
    ensures items == [Suggestion("red", "default value")]
  {
    var root, color, count, size := NewExampleTree();
    var cp := new CobraPrompt.New(root);
    ColorValueAtSpace(color, count, size);
    items := cp.Completer(PlainLexer, WalkFinder, Document("add apple --color ", ""));
  }

  /** "add apple --color r" with the cursor after the r: the same, and no flag names. */
  method ColorValueMidWord() returns (items: seq<Suggestion>)
    ensures items == [Suggestion("red", "default value")]
  {
    var root, color, count, size := NewExampleTree();
    var cp := new CobraPrompt.New(root);
    ColorValueInWord(color, count, size);
    items := cp.Completer(PlainLexer, WalkFinder, Document("add apple --color r", "r"));
  }

  /** "add apple -" with the cursor after the dash: the flag forms of apple. */
  method AppleFlagNames() returns (items: seq<Suggestion>)
    ensures items == [Suggestion("--color", "Apple color"), Suggestion("-c", "Apple color"),
                      Suggestion("--count", "Number of items to add"), Suggestion("-n", "Number of items to add")]
  {
    var root, color, count, size := NewExampleTree();
    var cp := new CobraPrompt.New(root);
    AppleDashDocument(color, count, size);
    items := cp.Completer(PlainLexer, WalkFinder, Document("add apple -", "-"));
  }

  /** "add ap" with the cursor after the p: apple is offered. */
  method AddSubcommandPrefix() returns (items: seq<Suggestion>)
    ensures items == [Suggestion("apple", "Add apple")]
  {
    var root, color, count, size := NewExampleTree();
    var cp := new CobraPrompt.New(root);
    AddApDocument(color, count, size);
    items := cp.Completer(PlainLexer, WalkFinder, Document("add ap", "ap"));
  }

  /** An empty line: the three commands of the root. */
  method RootCommands() returns (items: seq<Suggestion>)
    ensures items == [Suggestion("add", "Add an item"), Suggestion("quit", "Quit program"), Suggestion("show", "Show items")]
  {
    var root, color, count, size := NewExampleTree();
    var cp := new CobraPrompt.New(root);
    EmptyDocument(color, count, size);
    items := cp.Completer(PlainLexer, WalkFinder, Document("", ""));
  }

  /**
   * Two lines in a row: whatever the first command's action left in its flags, the next line
   * starts from the declared defaults.
   */
  method ResetBetweenLines() returns (color1: string, count1: string, color2: string, count2: string)
    ensures color1 == "red" && count1 == "1"
    ensures color2 == "red" && count2 == "1"
  {
    var root, color, count, size := NewExampleTree();
    var cp := new CobraPrompt.New(root);
    ExampleTreeFlags(color, count, size);
    // the action of "add apple --color green -n 5" parsed its flags
    color.value, count.value := "green", "5";
    var args := cp.Executor(PlainLexer, "add apple");
    color1, count1 := color.value, count.value;
    // and the action of the next line changed them again
    color.value, count.value := "yellow", "2";
    args := cp.Executor(PlainLexer, "show");
    color2, count2 := color.value, count.value;
  }

  /** main sets the prefix to ">> "; the terminal then reads it back, live. */
  method PromptPrefix() returns (before: (string, bool), after: (string, bool))
    ensures before == ("> ", true) && after == (">> ", true)
  {
    var root, color, count, size := NewExampleTree();
    var cp := new CobraPrompt.New(root);
    before := cp.GetPrefix();
    cp.SetPromptPrefix(">> ");
    after := cp.GetPrefix();
  }
}
