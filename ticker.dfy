/** Ticker normalisation: the symbol typed by the user is upper-cased and
    gets the São Paulo exchange suffix ".SA" unless it already ends with
    it. */
module Ticker {

  /** The exchange suffix. */
  const Suffix: string := ".SA"

  /** Upper-casing of one character; only the ASCII letters `a` to `z`
      change. */
  function UpperChar(c: char): char
  {
    if 'a' <= c <= 'z' then (c as int - 32) as char else c
  }

  predicate IsLowerAscii(c: char)
  {
    'a' <= c <= 'z'
  }

  /** `str.upper()` on ASCII: every character upper-cased, nothing else
      changed, and no lower-case letter left. */
  function Upper(s: string): (u: string)
    ensures |u| == |s|
    ensures forall i :: 0 <= i < |s| ==> u[i] == UpperChar(s[i])
    ensures forall i :: 0 <= i < |u| ==> !IsLowerAscii(u[i])
  {
    if s == [] then [] else [UpperChar(s[0])] + Upper(s[1..])
  }

  predicate EndsWith(s: string, suffix: string)
  {
    |suffix| <= |s| && s[|s| - |suffix|..] == suffix
  }

  /** Appending the suffix unless it is already there. */
  function WithSuffix(t: string): (r: string)
    ensures EndsWith(r, Suffix)
    ensures r == t || r == t + Suffix
    ensures EndsWith(t, Suffix) ==> r == t
  {
    if EndsWith(t, Suffix) then t else t + Suffix
  }

  /** The symbol the dashboard queries for what the user typed. */
  function Normalize(input: string): (symbol: string)
    ensures EndsWith(symbol, Suffix)
    ensures symbol == Upper(input) || symbol == Upper(input) + Suffix
    ensures EndsWith(Upper(input), Suffix) ==> symbol == Upper(input)
  {
    WithSuffix(Upper(input))
  }

  lemma {:induction false} UpperIdempotent(s: string)
    ensures Upper(Upper(s)) == Upper(s)
  {
    var u := Upper(s);
    assert forall i :: 0 <= i < |u| ==> Upper(u)[i] == UpperChar(u[i]) == u[i];
  }

  lemma UpperAppendSuffix(t: string)
    ensures Upper(t + Suffix) == Upper(t) + Suffix
  {
    var l, r := Upper(t + Suffix), Upper(t) + Suffix;
    assert |l| == |r|;
    forall i | 0 <= i < |l| ensures l[i] == r[i] {
      if i >= |t| {
        assert (t + Suffix)[i] == Suffix[i - |t|];
      }
    }
  }

  /** Normalising an already normalised symbol changes nothing. */
  lemma NormalizeIdempotent(input: string)
    ensures Normalize(Normalize(input)) == Normalize(input)
  {
    var u := Upper(input);
    UpperIdempotent(input);
    if !EndsWith(u, Suffix) {
      UpperAppendSuffix(u);
    }
  }

  /** The helper's symbol: the suffix is appended unconditionally. */
  function HelperSymbol(t: string): (symbol: string)
    ensures EndsWith(symbol, Suffix)
    ensures |symbol| == |t| + |Suffix|
    ensures symbol[..|t|] == t
  {
    t + Suffix
  }

  /** Unlike WithSuffix, the helper's symbol is never a fixed point, and for
      a symbol that already ends with the suffix it doubles it. */
  lemma HelperSymbolNotIdempotent(t: string)
    ensures HelperSymbol(HelperSymbol(t)) != HelperSymbol(t)
    ensures EndsWith(t, Suffix) ==> HelperSymbol(t) != WithSuffix(t)
    ensures HelperSymbol("BBAS3.SA") == "BBAS3.SA.SA"
  {
    assert |HelperSymbol(HelperSymbol(t))| == |HelperSymbol(t)| + 3;
  }
}
