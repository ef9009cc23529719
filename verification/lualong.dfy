/** Lua long brackets, as section 3.1 of the Lua 5.4 Reference Manual
    defines them: `[`, n signs `=` and `[` open a string of level n, which
    runs to the first `]`, n signs `=` and `]`; a line break right after
    the opening bracket is not part of the string, and nothing inside is
    escaped. */
module LuaLong {
  import opened Wrappers
  import opened Text

  /** n signs `=`. */
  function Equals(n: nat): (r: string)
    ensures |r| == n && forall i :: 0 <= i < n ==> r[i] == '='
  {
    if n == 0 then "" else "=" + Equals(n - 1)
  }

  function Opener(n: nat): string { "[" + Equals(n) + "[" }

  function Closer(n: nat): string { "]" + Equals(n) + "]" }

  /** A level-n long bracket around a text, with nothing escaped. */
  function Bracketed(text: string, n: nat): string
  {
    Opener(n) + text + Closer(n)
  }

  /** The string a literal denotes when it is read as a level-n long
      bracket: the text between the opening bracket and the first closing
      bracket of that level, which must end the literal, without a line
      break that immediately follows the opening. `None` stands for a
      literal that is not such a bracket, or one holding a carriage
      return, whose line-end conversion this reader does not model. */
  function LongStringValue(lit: string, n: nat): (r: Option<string>)
    ensures r.Some? ==> |r.value| < |lit|
  {
    var k := n + 2;
    if |lit| >= 2 * k && lit[..k] == Opener(n) && lit[|lit| - k..] == Closer(n) && !Contains(lit[k..|lit| - 1], Closer(n)) then
      var body := lit[k..|lit| - k];
      if '\r' in body then None
      else if body != [] && body[0] == '\n' then Some(body[1..])
      else Some(body)
    else None
  }

  /** The text, followed by the closing bracket of level n, holds that
      bracket before its end: a bracket around the text would close early. */
  predicate ClosesEarly(text: string, n: nat)
  {
    Contains(text + "]" + Equals(n), Closer(n))
  }

  /** Only a text longer than n can close a level-n bracket early. */
  lemma EarlyNeedsLength(text: string, n: nat)
    requires ClosesEarly(text, n)
    ensures n < |text|
  {
    var t := text + "]" + Equals(n);
    var p :| 0 <= p <= |t| - |Closer(n)| && OccursAt(t, Closer(n), p);
    assert t[p + n + 1] == t[p..p + n + 2][n + 1] == ']';
    forall k | |text| < k < |t|
      ensures t[k] == '='
    {
      assert t[k] == Equals(n)[k - |text| - 1];
    }
  }

  /** The lowest level from n on at which the text cannot close the
      bracket early. */
  function LevelFrom(text: string, n: nat): (r: nat)
    ensures n <= r && !ClosesEarly(text, r)
    ensures forall m :: n <= m < r ==> ClosesEarly(text, m)
    decreases |text| - n
  {
    if !ClosesEarly(text, n) then n
    else
      EarlyNeedsLength(text, n);
      LevelFrom(text, n + 1)
  }

  /** A text that cannot close a level-n bracket early reads back from that
      bracket as itself, less a line break at its start. */
  lemma {:induction false} BracketedReadBack(text: string, n: nat)
    requires !ClosesEarly(text, n) && '\r' !in text
    ensures LongStringValue(Bracketed(text, n), n) == Some(if text != [] && text[0] == '\n' then text[1..] else text)
  {
    var k := n + 2;
    var lit := Bracketed(text, n);
    assert lit[..k] == Opener(n);
    assert lit[|lit| - k..] == Closer(n);
    assert lit[k..|lit| - 1] == text + "]" + Equals(n);
    assert lit[k..|lit| - k] == text;
  }

  /** A line break in front of a text does not let it close a bracket
      early. */
  lemma BreakKeepsOpen(text: string, n: nat)
    requires !ClosesEarly(text, n)
    ensures !ClosesEarly("\n" + text, n)
  {
    var t := text + "]" + Equals(n);
    var t' := "\n" + text + "]" + Equals(n);
    assert t' == "\n" + t;
    if ClosesEarly("\n" + text, n) {
      var p :| 0 <= p <= |t'| - |Closer(n)| && OccursAt(t', Closer(n), p);
      assert t'[p] == Closer(n)[0] == ']';
      assert p > 0;
      assert t[p - 1..p - 1 + |Closer(n)|] == t'[p..p + |Closer(n)|];
      assert OccursAt(t, Closer(n), p - 1);
    }
  }
}
