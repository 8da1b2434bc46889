/** Whitespace as Python's str.strip sees it. */
module Text {
  predicate Space(c: char) {
    var n := c as int;
    || 0x9 <= n <= 0xD || 0x1C <= n <= 0x20 || n == 0x85 || n == 0xA0 || n == 0x1680
    || 0x2000 <= n <= 0x200A || n == 0x2028 || n == 0x2029 || n == 0x202F || n == 0x205F || n == 0x3000
  }

  predicate Blank(s: string) {
    forall c :: c in s ==> Space(c)
  }

  function StripLeft(s: string): string {
    if s != "" && Space(s[0]) then StripLeft(s[1..]) else s
  }

  function StripRight(s: string): string {
    if s != "" && Space(s[|s| - 1]) then StripRight(s[..|s| - 1]) else s
  }

  function Strip(s: string): string { StripRight(StripLeft(s)) }

  /** A text that starts and ends with something visible is its own stripped form. */
  lemma StripOfVisible(s: string)
    requires s != "" && !Space(s[0]) && !Space(s[|s| - 1])
    ensures Strip(s) == s
  {
  }

  /** Strip cuts the text between its first and last visible character. */
  lemma {:induction false} StripLeftShape(s: string) returns (lo: nat)
    ensures lo <= |s| && StripLeft(s) == s[lo..]
    ensures (forall i :: 0 <= i < lo ==> Space(s[i])) && (lo < |s| ==> !Space(s[lo]))
    decreases |s|
  {
    if s != "" && Space(s[0]) {
      var k := StripLeftShape(s[1..]);
      lo := k + 1;
      assert s[1..][k..] == s[lo..];
      assert forall i :: 1 <= i < lo ==> s[i] == s[1..][i - 1];
    } else {
      lo := 0;
    }
  }

  lemma {:induction false} StripRightShape(s: string) returns (hi: nat)
    ensures hi <= |s| && StripRight(s) == s[..hi]
    ensures (forall i :: hi <= i < |s| ==> Space(s[i])) && (hi > 0 ==> !Space(s[hi - 1]))
    decreases |s|
  {
    if s != "" && Space(s[|s| - 1]) {
      hi := StripRightShape(s[..|s| - 1]);
      assert s[..|s| - 1][..hi] == s[..hi];
    } else {
      hi := |s|;
    }
  }

  /** s[lo..hi] is what Strip leaves of s. */
  ghost predicate Core(s: string, lo: nat, hi: nat) {
    && lo <= hi <= |s|
    && (forall i :: 0 <= i < lo ==> Space(s[i]))
    && (forall i :: hi <= i < |s| ==> Space(s[i]))
    && (lo < hi ==> !Space(s[lo]) && !Space(s[hi - 1]))
    && (lo == hi ==> Blank(s))
  }

  lemma StripShape(s: string) returns (lo: nat, hi: nat)
    ensures Core(s, lo, hi) && Strip(s) == s[lo..hi]
  {
    lo := StripLeftShape(s);
    var k := StripRightShape(s[lo..]);
    hi := lo + k;
    assert s[lo..][..k] == s[lo..hi];
    forall i | hi <= i < |s| ensures Space(s[i]) {
      assert s[i] == s[lo..][i - lo];
    }
    if lo < hi {
      assert s[hi - 1] == s[lo..][k - 1];
    }
  }

  /** A text strips to nothing exactly when it is blank. */
  lemma StripEmpty(s: string)
    ensures Strip(s) == "" <==> Blank(s)
  {
    var lo, hi := StripShape(s);
    assert lo < hi ==> s[lo] in s;
  }
}
