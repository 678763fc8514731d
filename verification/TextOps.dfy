/** The few string operations the modelled code relies on, over ASCII character classes. */
module TextOps {
  // str.isspace and the regex class \s, on ASCII
  predicate IsSpace(c: char): (r: bool)
    ensures r <==> 9 <= c as int <= 13 || 28 <= c as int <= 32
  {
    c == ' ' || c == '\t' || c == '\n' || c == '\r' || c == 11 as char || c == 12 as char
    || 28 as char <= c <= 31 as char
  }

  function LStrip(s: string): string {
    if s != "" && IsSpace(s[0]) then LStrip(s[1..]) else s
  }

  function RStrip(s: string): string {
    if s != "" && IsSpace(s[|s| - 1]) then RStrip(s[..|s| - 1]) else s
  }

  function Strip(s: string): string {
    RStrip(LStrip(s))
  }

  predicate IsBlank(s: string) {
    forall c :: c in s ==> IsSpace(c)
  }

  /** Stripping takes white space off both ends and nothing else. */
  lemma {:induction false} StripShape(s: string)
    ensures exists a, b :: s == a + Strip(s) + b && IsBlank(a) && IsBlank(b)
    ensures Strip(s) != "" ==> !IsSpace(Strip(s)[0]) && !IsSpace(Strip(s)[|Strip(s)| - 1])
  {
    var a := LStripShape(s);
    var b := RStripShape(LStrip(s));
    assert s == a + Strip(s) + b by {
      assert s == a + (Strip(s) + b);
    }
    if Strip(s) != "" {
      assert LStrip(s)[0] == Strip(s)[0];
    }
  }

  lemma {:induction false} LStripShape(s: string) returns (a: string)
    ensures s == a + LStrip(s) && IsBlank(a)
    ensures LStrip(s) != "" ==> !IsSpace(LStrip(s)[0])
  {
    if s != "" && IsSpace(s[0]) {
      var rest := LStripShape(s[1..]);
      a := [s[0]] + rest;
    } else {
      a := "";
    }
  }

  lemma {:induction false} RStripShape(s: string) returns (b: string)
    ensures s == RStrip(s) + b && IsBlank(b)
    ensures RStrip(s) != "" ==> !IsSpace(RStrip(s)[|RStrip(s)| - 1])
  {
    if s != "" && IsSpace(s[|s| - 1]) {
      var rest := RStripShape(s[..|s| - 1]);
      b := rest + [s[|s| - 1]];
    } else {
      b := "";
    }
  }

  /** What the source tests with `not s.strip()`. */
  lemma {:induction false} StripEmptyIff(s: string)
    ensures Strip(s) == "" <==> IsBlank(s)
  {
    LStripEmptyIff(s);
    RStripEmptyIff(LStrip(s));
  }

  lemma {:induction false} LStripEmptyIff(s: string)
    ensures IsBlank(LStrip(s)) <==> IsBlank(s)
  {
    if s != "" && IsSpace(s[0]) {
      LStripEmptyIff(s[1..]);
      assert forall c :: c in s <==> c == s[0] || c in s[1..];
    }
  }

  lemma {:induction false} RStripEmptyIff(s: string)
    ensures RStrip(s) == "" <==> IsBlank(s)
  {
    if s != "" && IsSpace(s[|s| - 1]) {
      RStripEmptyIff(s[..|s| - 1]);
      assert s == s[..|s| - 1] + [s[|s| - 1]];
    }
  }
}
