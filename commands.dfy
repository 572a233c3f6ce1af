/**
 * The command tree the shell completes against and resets (cobra commands and pflag flags).
 * Only flag values change in this core, so a flag is an object with a mutable value and a
 * command is a value holding its children and references to its flags.
 */
module Commands {
  import opened Results

  /** A pflag flag: fixed metadata and the current value, which the core resets in place. */
  class Flag {
    const name: string
    const shorthand: string   // "" when the flag has none
    const hidden: bool
    const typeName: string    // Value.Type(), e.g. "bool", "string", "int"
    const defValue: string
    const usage: string
    var value: string

    constructor (name: string, shorthand: string, hidden: bool, typeName: string, defValue: string, usage: string)
      ensures this.name == name && this.shorthand == shorthand && this.hidden == hidden
      ensures this.typeName == typeName && this.defValue == defValue && this.usage == usage
      ensures value == defValue
    {
      this.name := name;
      this.shorthand := shorthand;
      this.hidden := hidden;
      this.typeName := typeName;
      this.defValue := defValue;
      this.usage := usage;
      value := defValue;
    }
  }

  /**
   * A cobra command. children is in the order Commands() returns them; localFlags and
   * inheritedFlags are in the order LocalFlags().VisitAll and InheritedFlags().VisitAll visit them.
   */
  datatype Command = Command(
    name: string,
    short: string,
    available: bool,
    children: seq<Command>,
    localFlags: seq<Flag>,
    inheritedFlags: seq<Flag>)
  {
    /** Flags(): every flag that applies to the command, local ones first. */
    function Flags(): seq<Flag> {
      localFlags + inheritedFlags
    }
  }

  /** cobra's Find, foreign to this model: a node of the tree for the words, or an error. */
  type Finder = (Command, seq<string>) -> Result<Command>

  /** The node the completer works at: what Find returns, or the root when Find fails. */
  function ResolveCommand(find: Finder, root: Command, words: seq<string>): (cmd: Command)
    ensures find(root, words).Err? ==> cmd == root
    ensures find(root, words).Ok? ==> cmd == find(root, words).value
  {
    match find(root, words)
    case Ok(found) => found
    case Err(_) => root
  }

  /** n is c or a node below it. */
  ghost predicate InSubtree(n: Command, c: Command)
    decreases c
  {
    n == c || exists i :: 0 <= i < |c.children| && InSubtree(n, c.children[i])
  }

  /** Every flag object referred to by some node of c's subtree. */
  ghost function TreeFlags(c: Command): set<Flag>
    decreases c
  {
    (set f | f in c.Flags()) +
    (set i, f | 0 <= i < |c.children| && f in TreeFlags(c.children[i]) :: f)
  }

  /** TreeFlags covers the flags of every node of the subtree. */
  lemma {:induction false} TreeFlagsCoverSubtree(n: Command, c: Command, f: Flag)
    requires InSubtree(n, c) && f in n.Flags()
    ensures f in TreeFlags(c)
    decreases c
  {
    if n != c {
      var i :| 0 <= i < |c.children| && InSubtree(n, c.children[i]);
      TreeFlagsCoverSubtree(n, c.children[i], f);
    }
  }

  /** ...and nothing more: each flag it holds is a flag of some node of the subtree. */
  lemma {:induction false} TreeFlagsComeFromSubtree(c: Command, f: Flag)
    requires f in TreeFlags(c)
    ensures exists n :: InSubtree(n, c) && f in n.Flags()
    decreases c
  {
    if f !in c.Flags() {
      var i :| 0 <= i < |c.children| && f in TreeFlags(c.children[i]);
      TreeFlagsComeFromSubtree(c.children[i], f);
      var n :| InSubtree(n, c.children[i]) && f in n.Flags();
      assert InSubtree(n, c);
    }
  }

  /** The flags of a tree are allocated objects. */
  lemma {:induction false} TreeFlagsAllocated(c: Command)
    ensures forall f :: f in TreeFlags(c) ==> allocated(f)
    ensures forall i, f :: 0 <= i < |c.children| && f in TreeFlags(c.children[i]) ==> allocated(f)
    decreases c
  {
    forall i | 0 <= i < |c.children| ensures forall f :: f in TreeFlags(c.children[i]) ==> allocated(f) {
      TreeFlagsAllocated(c.children[i]);
    }
  }

  /** The visitor of resetFlagValues run by VisitAll: every flag of flags is set back to its default. */
  method ResetEach(flags: seq<Flag>)
    modifies set f | f in flags
    ensures forall f :: f in flags ==> f.value == f.defValue
  {
    for k := 0 to |flags|
      invariant forall j :: 0 <= j < k ==> flags[j].value == flags[j].defValue
    {
      flags[k].value := flags[k].defValue;
    }
  }

  /**
   * resetFlagValues: every flag of every node below c is set back to its default, in place.
   * Names, defaults and the tree's shape are immutable here, and no other object changes.
   */
  method ResetFlagValues(c: Command)
    modifies TreeFlags(c)
    ensures forall f :: f in TreeFlags(c) ==> f.value == f.defValue
    decreases c
  {
    TreeFlagsAllocated(c);
    ResetEach(c.Flags());
    for i := 0 to |c.children|
      invariant forall f :: f in c.Flags() ==> f.value == f.defValue
      invariant forall j, f :: 0 <= j < i && f in TreeFlags(c.children[j]) ==> f.value == f.defValue
    {
      assert TreeFlags(c.children[i]) <= TreeFlags(c);
      ResetFlagValues(c.children[i]);
    }
    forall f | f in TreeFlags(c)
      ensures f.value == f.defValue
    {
      if f !in c.Flags() {
        var i :| 0 <= i < |c.children| && f in TreeFlags(c.children[i]);
      }
    }
  }
}
