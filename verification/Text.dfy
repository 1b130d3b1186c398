/** Stripping characters off the ends of strings. */
module Text {

  /** What Python's `strip` and `split` take for white space. */
  predicate IsSpace(c: char) {
    var n := c as int;
    || 0x09 <= n <= 0x0D || 0x1C <= n <= 0x20 || n == 0x85 || n == 0xA0 || n == 0x1680
    || 0x2000 <= n <= 0x200A || n == 0x2028 || n == 0x2029 || n == 0x202F || n == 0x205F || n == 0x3000
  }

  function StripLeft(s: string, drop: char -> bool): string {
    if s != "" && drop(s[0]) then StripLeft(s[1..], drop) else s
  }

  function StripRight(s: string, drop: char -> bool): string {
    if s != "" && drop(s[|s| - 1]) then StripRight(s[..|s| - 1], drop) else s
  }

  function StripOf(s: string, drop: char -> bool): string {
    StripRight(StripLeft(s, drop), drop)
  }

  function Strip(s: string): string {
    StripOf(s, IsSpace)
  }

  predicate Blank(s: string) {
    Strip(s) == ""
  }

  ghost predicate Stripped(s: string) {
    s != "" ==> !IsSpace(s[0]) && !IsSpace(s[|s| - 1])
  }

  lemma {:induction false} StripLeftShape(s: string, drop: char -> bool)
    ensures var t := StripLeft(s, drop); t != "" ==> !drop(t[0])
    ensures forall c :: c in StripLeft(s, drop) ==> c in s
  {
    if s != "" { StripLeftShape(s[1..], drop); }
  }

  lemma {:induction false} StripRightShape(s: string, drop: char -> bool)
    ensures var t := StripRight(s, drop);
      && t <= s
      && (t != "" ==> !drop(t[|t| - 1]))
  {
    if s != "" { StripRightShape(s[..|s| - 1], drop); }
  }

  /** Only dropped characters are stripped, from either end, and none is left there. */
  lemma StripSplits(s: string, drop: char -> bool) returns (left: string, right: string)
    ensures s == left + StripOf(s, drop) + right
    ensures forall c :: c in left || c in right ==> drop(c)
    ensures var t := StripOf(s, drop); t != "" ==> !drop(t[0]) && !drop(t[|t| - 1])
  {
    left := LeftDropped(s, drop);
    right := RightDropped(StripLeft(s, drop), drop);
    StripLeftShape(s, drop);
    StripRightShape(StripLeft(s, drop), drop);
  }

  lemma {:induction false} LeftDropped(s: string, drop: char -> bool) returns (left: string)
    ensures s == left + StripLeft(s, drop)
    ensures forall c :: c in left ==> drop(c)
  {
    left := "";
    if s != "" && drop(s[0]) {
      var rest := LeftDropped(s[1..], drop);
      left := [s[0]] + rest;
    }
  }

  lemma {:induction false} RightDropped(s: string, drop: char -> bool) returns (right: string)
    ensures s == StripRight(s, drop) + right
    ensures forall c :: c in right ==> drop(c)
  {
    right := "";
    if s != "" && drop(s[|s| - 1]) {
      var rest := RightDropped(s[..|s| - 1], drop);
      right := rest + [s[|s| - 1]];
    }
  }

  /** A blank string is one of white space alone. */
  lemma BlankIff(s: string)
    ensures Blank(s) <==> forall c :: c in s ==> IsSpace(c)
  {
    var left, right := StripSplits(s, IsSpace);
    if Strip(s) != "" {
      assert s[|left|] == Strip(s)[0];
      assert !IsSpace(s[|left|]) && s[|left|] in s;
    } else {
      assert s == left + right;
    }
  }

  /** Stripping leaves a stripped string of the same characters, and leaves stripped strings alone. */
  lemma StripShape(s: string)
    ensures Stripped(Strip(s))
    ensures forall c :: c in Strip(s) ==> c in s
    ensures Stripped(s) ==> Strip(s) == s
  {
    StripLeftShape(s, IsSpace);
    StripRightShape(StripLeft(s, IsSpace), IsSpace);
  }

  lemma StripTwice(s: string)
    ensures Strip(Strip(s)) == Strip(s)
  {
    StripShape(s);
    StripShape(Strip(s));
  }
}
