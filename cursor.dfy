/**
 * The cursor context: splitDocument in cobra_prompt.go. The terminal reports the whole text
 * buffer and the part of the current word that lies left of the cursor; from these come the
 * words of the line, the word before the one being typed (prev) and the word being typed (curr).
 */
module Cursor {
  import opened Tokenizer

  /** What the terminal reports on each keystroke: the buffer and the word left of the cursor. */
  datatype Document = Document(text: string, wordBeforeCursor: string)

  /** The words of the buffer, the previous word and the current word. */
  datatype Context = Context(words: seq<string>, prev: string, curr: string)

  function SplitDocument(shlex: Lexer, d: Document): (ctx: Context)
    ensures ctx.words == SplitString(shlex, d.text)
    // cursor at whitespace: nothing is being typed, prev is the last word (or "" if none)
    ensures d.wordBeforeCursor == "" ==> ctx.curr == ""
    ensures d.wordBeforeCursor == "" && ctx.words == [] ==> ctx.prev == ""
    ensures d.wordBeforeCursor == "" && ctx.words != [] ==>
      ctx.words == ctx.words[..|ctx.words| - 1] + [ctx.prev]
    // cursor inside a word: curr is the last word, prev the one before it ("" when missing)
    ensures d.wordBeforeCursor != "" && ctx.words == [] ==> ctx.prev == "" && ctx.curr == ""
    ensures d.wordBeforeCursor != "" && |ctx.words| == 1 ==> ctx.prev == "" && ctx.words == [ctx.curr]
    ensures d.wordBeforeCursor != "" && |ctx.words| >= 2 ==>
      ctx.words == ctx.words[..|ctx.words| - 2] + [ctx.prev, ctx.curr]
  {
    var words := SplitString(shlex, d.text);
    var n := |words|;
    if d.wordBeforeCursor == "" then
      Context(words, if n >= 1 then words[n - 1] else "", "")
    else
      Context(words, if n >= 2 then words[n - 2] else "", if n >= 1 then words[n - 1] else "")
  }
}
