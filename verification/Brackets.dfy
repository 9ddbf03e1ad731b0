/** The bracket scan over code whose strings and comments were blanked out. */
module Brackets {
  import opened Wrappers
  import opened Nesting

  predicate IsOpen(c: char) { c in ['{', '[', '('] }

  predicate IsClose(c: char) { c in ['}', ']', ')'] }

  /** The opener a closer belongs to. */
  function OpenerOf(c: char): char
    requires IsClose(c)
  {
    if c == '}' then '{' else if c == ']' then '[' else '('
  }

  function TokenOf(c: char): Token<char> {
    if IsOpen(c) then Open(c) else if IsClose(c) then Close(OpenerOf(c)) else Plain
  }

  function Tokens(s: string): (r: seq<Token<char>>)
    ensures |r| == |s|
  {
    if s == "" then [] else Tokens(s[..|s| - 1]) + [TokenOf(s[|s| - 1])]
  }

  datatype Verdict = Fine | Unmatched(c: char) | Unclosed

  /** The delimiters still open, shared by the calls for successive characters. */
  class DelimiterStack {
    var open: seq<char>

    constructor ()
      ensures open == []
    {
      open := [];
    }

    method CheckBracketChar(c: char) returns (error: Verdict)
      modifies this
      ensures Push(TokenOf(c), old(open)).Some? ==> error == Fine && Some(open) == Push(TokenOf(c), old(open))
      ensures Push(TokenOf(c), old(open)).None? ==> error == Unmatched(c) && open == old(open)
    {
      if IsOpen(c) {
        open := open + [c];
        return Fine;
      }
      if !IsClose(c) { return Fine; }
      if open == [] || open[|open| - 1] != OpenerOf(c) { return Unmatched(c); }
      open := open[..|open| - 1];
      return Fine;
    }
  }

  /** The character at `i` is the first that no continuation can make well nested. */
  ghost predicate FirstFault(s: string, i: nat) {
    i < |s| && Viable(Tokens(s[..i])) && !Viable(Tokens(s[..i + 1]))
  }

  /** Accepted exactly when well nested; unclosed exactly when only a continuation is missing;
      otherwise the first character past repair is named. */
  method CheckBracketPairs(s: string) returns (verdict: Verdict)
    ensures verdict == Fine <==> WellNested(Tokens(s))
    ensures verdict == Unclosed <==> Viable(Tokens(s)) && !WellNested(Tokens(s))
    ensures verdict.Unmatched? ==> exists i: nat :: FirstFault(s, i) && verdict.c == s[i]
  {
    var stack := new DelimiterStack();
    for i := 0 to |s|
      invariant fresh(stack)
      invariant Run(Tokens(s[..i]), []) == Some(stack.open)
    {
      TokensNext(s, i);
      RunSnoc(Tokens(s[..i]), TokenOf(s[i]), []);
      SurvivesIffViable(Tokens(s[..i]));
      SurvivesIffViable(Tokens(s[..i + 1]));
      var error := stack.CheckBracketChar(s[i]);
      if error != Fine {
        assert FirstFault(s, i);
        FaultIsFinal(s, i);
        return error;
      }
    }
    assert s[..|s|] == s;
    RecognisesGrammar(Tokens(s));
    SurvivesIffViable(Tokens(s));
    return if stack.open == [] then Fine else Unclosed;
  }

  lemma TokensNext(s: string, i: nat)
    requires i < |s|
    ensures Tokens(s[..i + 1]) == Tokens(s[..i]) + [TokenOf(s[i])]
  {
    assert s[..i + 1][..i] == s[..i];
  }

  lemma {:induction false} TokensConcat(a: string, b: string)
    ensures Tokens(a + b) == Tokens(a) + Tokens(b)
  {
    if b == "" {
      assert a + b == a;
    } else {
      var n := |b| - 1;
      TokensConcat(a, b[..n]);
      assert (a + b)[..|a + b| - 1] == a + b[..n];
    }
  }

  /** No continuation helps once a character is at fault, so there is at most one such position. */
  lemma FaultIsFinal(s: string, i: nat)
    requires FirstFault(s, i)
    ensures !Viable(Tokens(s)) && !WellNested(Tokens(s))
    ensures forall j: nat :: FirstFault(s, j) ==> j == i
  {
    forall k: nat | i < k <= |s|
      ensures !Viable(Tokens(s[..k]))
    {
      assert s[..k] == s[..i + 1] + s[i + 1..k];
      TokensConcat(s[..i + 1], s[i + 1..k]);
      RunConcat(Tokens(s[..i + 1]), Tokens(s[i + 1..k]), []);
      SurvivesIffViable(Tokens(s[..i + 1]));
      SurvivesIffViable(Tokens(s[..k]));
    }
    assert s[..|s|] == s;
    RecognisesGrammar(Tokens(s));
    SurvivesIffViable(Tokens(s));
    forall j: nat | FirstFault(s, j)
      ensures j == i
    {
      if j < i {
        assert s[..i] == s[..j + 1] + s[j + 1..i];
        TokensConcat(s[..j + 1], s[j + 1..i]);
        RunConcat(Tokens(s[..j + 1]), Tokens(s[j + 1..i]), []);
        SurvivesIffViable(Tokens(s[..j + 1]));
        SurvivesIffViable(Tokens(s[..i]));
      }
    }
  }
}
