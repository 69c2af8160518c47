/**
  The cursor of the lexer package that both filter lexers are written against.

  That package is not part of this model; what its primitives do is inferred from how
  the filter lexers call them, and the bodies below are those inferred meanings:
  - the input is scanned one character per position (multi-byte UTF-8 is not modelled);
  - `Next` returns the character under the cursor and moves past it, and at the end of
    the input returns EOF without moving;
  - `Peek` returns what `Next` would, without moving;
  - `Accept`, `AcceptRun` and `AcceptButRun` move over one, or a run of, characters in
    (respectively not in) a given set, and stop at the end of the input;
  - `Dec(n)` moves the cursor `n` positions back;
  - `Ignore` drops the pending text, `Emit` turns it into a token;
  - `Consume(s)` moves past `s` when the input continues with `s`.
*/
module Lex {
  import opened GoStrings

  /** A rune read by the cursor: a character, or EOF past the end of the input. */
  datatype Rune = EOF | Ch(c: char)

  /** The token types of the lexer package (error, end of input) and of the filter lexers. */
  datatype TokenKind =
    | TypeError | TypeEOF
    | TypeName | TypeOperator | TypeValuesStart | TypeValuesEnd | TypeValue
    | TypeAnd | TypeOr | TypeGroupStart | TypeGroupEnd

  datatype Token = Token(kind: TokenKind, value: string)

  /** The end of the run of characters outside `stops` that starts at `i`. */
  function RunEnd(s: string, i: nat, stops: string): (j: nat)
    requires i <= |s|
    ensures i <= j <= |s|
    ensures j == |s| || s[j] in stops
    decreases |s| - i
  {
    if i == |s| || s[i] in stops then i else RunEnd(s, i + 1, stops)
  }

  /** `RunEnd` is the first position at or after `i` that holds a character of `stops`, or the end of `s`. */
  lemma {:induction false} RunEndFirst(s: string, i: nat, stops: string)
    requires i <= |s|
    ensures forall k :: i <= k < RunEnd(s, i, stops) ==> s[k] !in stops
    decreases |s| - i
  {
    if i < |s| && s[i] !in stops {
      RunEndFirst(s, i + 1, stops);
    }
  }

  /** A run of characters outside `stops` that is followed by a stop or the end is where `RunEnd` ends. */
  lemma {:induction false} RunEndAt(s: string, i: nat, stops: string, e: nat)
    requires i <= e <= |s| && (e == |s| || s[e] in stops)
    requires forall k :: i <= k < e ==> s[k] !in stops
    ensures RunEnd(s, i, stops) == e
    decreases e - i
  {
    if i < e {
      RunEndAt(s, i + 1, stops, e);
    }
  }

  /** The end of the run of characters of `chars` that starts at `i`. */
  function RunWhile(s: string, i: nat, chars: string): (j: nat)
    requires i <= |s|
    ensures i <= j <= |s|
    ensures j == |s| || s[j] !in chars
    decreases |s| - i
  {
    if i == |s| || s[i] !in chars then i else RunWhile(s, i + 1, chars)
  }

  /** `RunWhile` is the first position at or after `i` that holds a character outside `chars`, or the end of `s`. */
  lemma {:induction false} RunWhileFirst(s: string, i: nat, chars: string)
    requires i <= |s|
    ensures forall k :: i <= k < RunWhile(s, i, chars) ==> s[k] in chars
    decreases |s| - i
  {
    if i < |s| && s[i] in chars {
      RunWhileFirst(s, i + 1, chars);
    }
  }

  class Lexer {
    const input: string
    /** Where the pending token starts. */
    var start: nat
    /** The cursor. */
    var pos: nat
    /** The tokens emitted so far, in order. */
    var tokens: seq<Token>

    ghost predicate Valid()
      reads this
    {
      start <= |input| && pos <= |input|
    }

    constructor (input: string)
      ensures this.input == input && start == 0 && pos == 0 && tokens == []
      ensures Valid()
    {
      this.input := input;
      start, pos, tokens := 0, 0, [];
    }

    method Next() returns (r: Rune)
      requires Valid()
      modifies this`pos
      ensures Valid()
      ensures old(pos) < |input| ==> r == Ch(input[old(pos)]) && pos == old(pos) + 1
      ensures old(pos) == |input| ==> r == EOF && pos == old(pos)
    {
      if pos < |input| {
        r := Ch(input[pos]);
        pos := pos + 1;
      } else {
        r := EOF;
      }
    }

    method Peek() returns (r: Rune)
      requires Valid()
      ensures pos < |input| ==> r == Ch(input[pos])
      ensures pos == |input| ==> r == EOF
    {
      r := if pos < |input| then Ch(input[pos]) else EOF;
    }

    method Dec(n: nat)
      requires Valid() && n <= pos
      modifies this`pos
      ensures Valid() && pos == old(pos) - n
    {
      pos := pos - n;
    }

    method Accept(valid: string) returns (ok: bool)
      requires Valid()
      modifies this`pos
      ensures Valid()
      ensures ok == (old(pos) < |input| && input[old(pos)] in valid)
      ensures pos == if ok then old(pos) + 1 else old(pos)
    {
      ok := pos < |input| && input[pos] in valid;
      if ok {
        pos := pos + 1;
      }
    }

    method AcceptRun(valid: string)
      requires Valid()
      modifies this`pos
      ensures Valid() && pos == RunWhile(input, old(pos), valid)
    {
      while pos < |input| && input[pos] in valid
        invariant old(pos) <= pos <= |input|
        invariant RunWhile(input, pos, valid) == RunWhile(input, old(pos), valid)
        decreases |input| - pos
      {
        pos := pos + 1;
      }
    }

    method AcceptButRun(invalid: string)
      requires Valid()
      modifies this`pos
      ensures Valid() && pos == RunEnd(input, old(pos), invalid)
    {
      while pos < |input| && input[pos] !in invalid
        invariant old(pos) <= pos <= |input|
        invariant RunEnd(input, pos, invalid) == RunEnd(input, old(pos), invalid)
        decreases |input| - pos
      {
        pos := pos + 1;
      }
    }

    method Ignore()
      requires Valid()
      modifies this`start
      ensures Valid() && start == pos
    {
      start := pos;
    }

    method Emit(kind: TokenKind)
      requires Valid() && start <= pos
      modifies this`start, this`tokens
      ensures Valid() && start == pos
      ensures tokens == old(tokens) + [Token(kind, input[old(start)..pos])]
    {
      tokens := tokens + [Token(kind, input[start..pos])];
      start := pos;
    }

    method Consume(prefix: string) returns (ok: bool)
      requires Valid()
      modifies this`pos
      ensures Valid()
      ensures ok == OccursAt(input, prefix, old(pos))
      ensures pos == if ok then old(pos) + |prefix| else old(pos)
    {
      ok := OccursAt(input, prefix, pos);
      if ok {
        pos := pos + |prefix|;
      }
    }
  }
}
