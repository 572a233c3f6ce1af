/**
 * The tokenizer: splitString in cobra_prompt.go. A quote-aware split (shlex.Split, a foreign
 * library) is tried first; when it reports an error the line is split at whitespace the way
 * Go's strings.Fields does, so tokenizing never fails.
 */
module Tokenizer {
  import opened Results

  /** shlex.Split: the quote-aware split, foreign to this model, either yields words or fails. */
  type Lexer = string -> Result<seq<string>>

  /** Go's unicode.IsSpace, the separator test of strings.Fields. */
  predicate IsSpace(c: char) {
    var n := c as int;
    (9 <= n <= 13) || n == 0x20 || n == 0x85 || n == 0xA0 || n == 0x1680 ||
    (0x2000 <= n <= 0x200A) || n == 0x2028 || n == 0x2029 || n == 0x202F || n == 0x205F || n == 0x3000
  }

  predicate SpaceFree(s: string) {
    forall i :: 0 <= i < |s| ==> !IsSpace(s[i])
  }

  /** The length of the run of non-space characters that starts s: the run cannot be extended. */
  function WordLength(s: string): (n: nat)
    ensures n <= |s|
    ensures SpaceFree(s[..n])
    ensures n < |s| ==> IsSpace(s[n])
  {
    if s == [] || IsSpace(s[0]) then 0
    else
      var n := 1 + WordLength(s[1..]);
      assert s[..n] == [s[0]] + s[1..][..n - 1];
      n
  }

  /** strings.Fields: the maximal runs of non-space characters of s, in order. */
  function Fields(s: string): seq<string>
    decreases |s|
  {
    if s == [] then []
    else if IsSpace(s[0]) then Fields(s[1..])
    else
      var n := WordLength(s);
      [s[..n]] + Fields(s[n..])
  }

  /** The characters of s with every space removed. */
  function WithoutSpace(s: string): string {
    if s == [] then [] else (if IsSpace(s[0]) then [] else [s[0]]) + WithoutSpace(s[1..])
  }

  /** The words of ws written one after the other. */
  function Concat(ws: seq<string>): string {
    if ws == [] then [] else ws[0] + Concat(ws[1..])
  }

  /** splitString: the quote-aware split when it succeeds, otherwise the whitespace split. */
  function SplitString(shlex: Lexer, line: string): (words: seq<string>)
    ensures shlex(line).Ok? ==> words == shlex(line).value
    ensures shlex(line).Err? ==> words == Fields(line)
    ensures shlex(line).Err? ==> forall w :: w in words ==> w != [] && SpaceFree(w)
  {
    match shlex(line)
    case Ok(words) => words
    case Err(_) => FieldsWellFormed(line); Fields(line)
  }

  /** No word of the whitespace split is empty or holds a space. */
  lemma {:induction false} FieldsWellFormed(s: string)
    ensures forall w :: w in Fields(s) ==> w != [] && SpaceFree(w)
    decreases |s|
  {
    if s == [] {
    } else if IsSpace(s[0]) {
      FieldsWellFormed(s[1..]);
    } else {
      var n := WordLength(s);
      FieldsWellFormed(s[n..]);
    }
  }

  lemma {:induction false} WithoutSpaceAppend(a: string, b: string)
    ensures WithoutSpace(a + b) == WithoutSpace(a) + WithoutSpace(b)
  {
    if a == [] {
      assert a + b == b;
    } else {
      assert (a + b)[1..] == a[1..] + b;
      WithoutSpaceAppend(a[1..], b);
    }
  }

  lemma {:induction false} WithoutSpaceOfWord(w: string)
    requires SpaceFree(w)
    ensures WithoutSpace(w) == w
  {
    if w != [] {
      WithoutSpaceOfWord(w[1..]);
    }
  }

  /** The whitespace split drops the spaces of s and nothing else. */
  lemma {:induction false} FieldsKeepText(s: string)
    ensures Concat(Fields(s)) == WithoutSpace(s)
    decreases |s|
  {
    if s == [] {
    } else if IsSpace(s[0]) {
      FieldsKeepText(s[1..]);
    } else {
      var n := WordLength(s);
      FieldsKeepText(s[n..]);
      assert s == s[..n] + s[n..];
      WithoutSpaceAppend(s[..n], s[n..]);
      WithoutSpaceOfWord(s[..n]);
      assert Concat(Fields(s)) == s[..n] + Concat(Fields(s[n..]));
    }
  }

  /** Any split point satisfying WordLength's contract is WordLength itself. */
  lemma WordLengthUnique(s: string, n: nat)
    requires n <= |s| && SpaceFree(s[..n]) && (n < |s| ==> IsSpace(s[n]))
    ensures WordLength(s) == n
  {
    var m := WordLength(s);
    assert forall i :: 0 <= i < n ==> s[..n][i] == s[i];
    assert forall i :: 0 <= i < m ==> s[..m][i] == s[i];
  }

  /** A space separates words: the split of a, a space, then b is the split of a, then of b. */
  lemma {:induction false} FieldsSeparated(a: string, c: char, b: string)
    requires IsSpace(c)
    ensures Fields(a + [c] + b) == Fields(a) + Fields(b)
    decreases |a|
  {
    var s := a + [c] + b;
    if a == [] {
      assert s[1..] == b;
    } else if IsSpace(a[0]) {
      assert s[1..] == a[1..] + [c] + b;
      FieldsSeparated(a[1..], c, b);
    } else {
      var n := WordLength(a);
      assert s[..n] == a[..n];
      if n < |a| {
        assert s[n] == a[n];
      } else {
        assert s[n] == c;
      }
      WordLengthUnique(s, n);
      assert s[n..] == a[n..] + [c] + b;
      FieldsSeparated(a[n..], c, b);
    }
  }

  /** A non-empty run of non-space characters is split into itself alone. */
  lemma FieldsOfWord(w: string)
    requires w != [] && SpaceFree(w)
    ensures Fields(w) == [w]
  {
    assert w[..|w|] == w;
    WordLengthUnique(w, |w|);
    assert w[|w|..] == [];
  }

  /** Words written with one space between each pair. */
  function JoinWords(ws: seq<string>): string {
    if ws == [] then ""
    else if |ws| == 1 then ws[0]
    else ws[0] + " " + JoinWords(ws[1..])
  }

  /** Splitting words joined by single spaces gives the words back, when none is empty or spaced. */
  lemma {:induction false} FieldsJoinWords(ws: seq<string>)
    requires forall w :: w in ws ==> w != [] && SpaceFree(w)
    ensures Fields(JoinWords(ws)) == ws
  {
    if ws != [] {
      assert ws[0] in ws;
      assert forall w :: w in ws[1..] ==> w in ws;
    }
    if |ws| == 1 {
      FieldsOfWord(ws[0]);
    } else if |ws| > 1 {
      FieldsJoinWords(ws[1..]);
      FieldsOfWord(ws[0]);
      assert JoinWords(ws) == ws[0] + [' '] + JoinWords(ws[1..]);
      FieldsSeparated(ws[0], ' ', JoinWords(ws[1..]));
    }
  }

  /** A trailing space adds no word. */
  lemma FieldsTrailingSpace(s: string)
    ensures Fields(s + " ") == Fields(s)
  {
    FieldsSeparated(s, ' ', "");
    assert s + " " == s + [' '] + "";
  }
}
