/** How symbols and text fields are cleaned: Python's `upper` and `strip` on ASCII text. */
module Text {

  /** The ASCII characters Python's `strip` removes: blanks, tab to carriage return, and the separators
      before the blank. */
  predicate IsSpace(c: char) {
    c == ' ' || 9 <= c as int <= 13 || 28 <= c as int <= 31
  }

  function StripLeft(s: string): string {
    if s != "" && IsSpace(s[0]) then StripLeft(s[1..]) else s
  }

  function StripRight(s: string): string {
    if s != "" && IsSpace(s[|s| - 1]) then StripRight(s[..|s| - 1]) else s
  }

  function Strip(s: string): string {
    StripRight(StripLeft(s))
  }

  function UpperChar(c: char): char {
    if 'a' <= c <= 'z' then c - 'a' + 'A' else c
  }

  function Upper(s: string): string {
    seq(|s|, i requires 0 <= i < |s| => UpperChar(s[i]))
  }

  /** The spelling under which a symbol is stored: `symbol.upper().strip()`. */
  function Ticker(symbol: string): string {
    Strip(Upper(symbol))
  }

  ghost predicate Trimmed(s: string) {
    s != "" ==> !IsSpace(s[0]) && !IsSpace(s[|s| - 1])
  }

  lemma {:induction false} StripLeftTrims(s: string)
    ensures var t := StripLeft(s);
      && (t != "" ==> !IsSpace(t[0]))
      && (forall c :: c in t ==> c in s)
  {
    if s == "" || !IsSpace(s[0]) {
    } else {
      StripLeftTrims(s[1..]);
    }
  }

  lemma {:induction false} StripRightTrims(s: string)
    requires s != "" ==> !IsSpace(s[0])
    ensures var t := StripRight(s);
      && Trimmed(t)
      && (forall c :: c in t ==> c in s)
  {
    if s == "" || !IsSpace(s[|s| - 1]) {
    } else {
      StripRightTrims(s[..|s| - 1]);
    }
  }

  /** Storing a stored symbol again, or booking a fill under its upper-case spelling, reaches the same
      ledger key. */
  lemma TickerIsStable(symbol: string)
    ensures var t := Ticker(symbol);
      Upper(t) == t && Ticker(t) == t && Trimmed(t)
  {
    var u := Upper(symbol);
    StripLeftTrims(u);
    StripRightTrims(StripLeft(u));
    var t := Ticker(symbol);
    assert forall i :: 0 <= i < |t| ==> t[i] in u;
    assert forall c :: c in u ==> UpperChar(c) == c;
    assert Upper(t) == t;
  }

  /** The characters, one by one. */
  const WHITE_SPACE := {' ', '\t', '\n', '\U{000B}', '\U{000C}', '\r',
                        '\U{001C}', '\U{001D}', '\U{001E}', '\U{001F}'}

  lemma SpaceIsWhite(c: char)
    ensures c in WHITE_SPACE <==> IsSpace(c)
  {
  }

  ghost predicate Spaces(s: string) {
    forall i :: 0 <= i < |s| ==> s[i] in WHITE_SPACE
  }

  lemma {:induction false} StripLeftDropsSpaces(before: string, s: string)
    requires Spaces(before)
    ensures StripLeft(before + s) == StripLeft(s)
  {
    if before == "" {
      assert before + s == s;
    } else {
      StripLeftDropsSpaces(before[1..], s);
      assert (before + s)[1..] == before[1..] + s;
    }
  }

  lemma {:induction false} StripRightDropsSpaces(s: string, after: string)
    requires Spaces(after)
    ensures StripRight(s + after) == StripRight(s)
  {
    if after == "" {
      assert s + after == s;
    } else {
      var n := |after| - 1;
      StripRightDropsSpaces(s, after[..n]);
      assert (s + after)[..|s| + n] == s + after[..n];
    }
  }

  lemma StripIs(before: string, s: string, after: string)
    requires Spaces(before) && Spaces(after) && Trimmed(s)
    ensures Strip(before + s + after) == s
  {
    assert before + s + after == before + (s + after);
    StripLeftDropsSpaces(before, s + after);
    if s == "" {
      assert s + after == after == after + "";
      StripLeftDropsSpaces(after, "");
    } else {
      StripRightDropsSpaces(s, after);
    }
  }

  /** The stored spelling drops the white space around a symbol and raises its letters, and nothing else. */
  lemma TickerIs(before: string, s: string, after: string)
    requires Spaces(before) && Spaces(after) && Trimmed(s)
    ensures var t := Ticker(before + s + after);
      && |t| == |s|
      && forall i :: 0 <= i < |s| ==>
           t[i] as int == if 'a' <= s[i] <= 'z' then s[i] as int - 32 else s[i] as int
  {
    assert Upper(before + s + after) == Upper(before) + Upper(s) + Upper(after);
    StripIs(Upper(before), Upper(s), Upper(after));
  }
}
