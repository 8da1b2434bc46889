/** Project key prefixes and task keys ("AGNT-12"). */
module Keys {

  // ---- decimal numerals ----

  function Digit(d: nat): (c: char)
    requires d < 10
    ensures '0' <= c <= '9'
  {
    '0' + d as char
  }

  function Decimal(n: nat): (s: string)
    ensures s != [] && forall c :: c in s ==> '0' <= c <= '9'
  {
    if n < 10 then [Digit(n)] else Decimal(n / 10) + [Digit(n % 10)]
  }

  lemma {:induction false} DecimalInjective(m: nat, n: nat)
    requires Decimal(m) == Decimal(n)
    ensures m == n
  {
    var s, t := Decimal(m), Decimal(n);
    assert s[|s| - 1] == t[|t| - 1];
    if m >= 10 && n >= 10 {
      assert s[..|s| - 1] == Decimal(m / 10) && t[..|t| - 1] == Decimal(n / 10);
      DecimalInjective(m / 10, n / 10);
    }
  }

  /** The number a numeral stands for. */
  function Value(s: string): int {
    if s == "" then 0 else 10 * Value(s[..|s| - 1]) + (s[|s| - 1] as int - '0' as int)
  }

  /** A number is printed in decimal, without leading zeros. */
  lemma {:induction false} DecimalValue(n: nat)
    ensures Value(Decimal(n)) == n && (n > 0 ==> Decimal(n)[0] != '0')
  {
    if n >= 10 {
      DecimalValue(n / 10);
      assert Decimal(n)[..|Decimal(n)| - 1] == Decimal(n / 10);
    }
  }

  // ---- task keys ----

  function Render(prefix: string, number: nat): string {
    prefix + "-" + Decimal(number)
  }

  function BeforeDash(s: string): string {
    if s == "" || s[0] == '-' then "" else [s[0]] + BeforeDash(s[1..])
  }

  lemma {:induction false} BeforeDashOfKey(prefix: string, rest: string)
    requires '-' !in prefix
    ensures BeforeDash(prefix + "-" + rest) == prefix
  {
    var s := prefix + "-" + rest;
    if prefix != "" {
      assert s[0] == prefix[0] && prefix[0] in prefix;
      assert s[1..] == prefix[1..] + "-" + rest;
      BeforeDashOfKey(prefix[1..], rest);
    }
  }

  /** A dash-free prefix makes the printed key readable back: two keys are equal
      only when both parts are. */
  lemma RenderInjective(p: string, m: nat, q: string, n: nat)
    requires '-' !in p && '-' !in q
    requires Render(p, m) == Render(q, n)
    ensures p == q && m == n
  {
    BeforeDashOfKey(p, Decimal(m));
    BeforeDashOfKey(q, Decimal(n));
    assert Decimal(m) == Render(p, m)[|p| + 1..];
    assert Decimal(n) == Render(q, n)[|q| + 1..];
    DecimalInjective(m, n);
  }

  // ---- letter case ----

  function UpperChar(c: char): (u: char)
    ensures Letter(c) ==> Capital(u)
    ensures if 'a' <= c <= 'z' then u as int - 'A' as int == c as int - 'a' as int else u == c
  {
    if 'a' <= c <= 'z' then (c as int - 32) as char else c
  }

  function Upper(s: string): (u: string)
    ensures |u| == |s| && forall i :: 0 <= i < |s| ==> u[i] == UpperChar(s[i])
  {
    seq(|s|, i requires 0 <= i < |s| => UpperChar(s[i]))
  }

  predicate Letter(c: char) { 'a' <= c <= 'z' || 'A' <= c <= 'Z' }
  predicate Capital(c: char) { 'A' <= c <= 'Z' }
  predicate Vowel(c: char) { c in "AEIOU" }

  /** Prefixes as this module issues them: capitals and digits, never a dash. */
  predicate PlainPrefix(s: string) {
    s != "" && forall c :: c in s ==> Capital(c) || '0' <= c <= '9'
  }

  lemma UpperOfKey(prefix: string, n: nat)
    requires PlainPrefix(prefix)
    ensures Upper(Render(prefix, n)) == Render(prefix, n)
  {
    var k := Render(prefix, n);
    forall i | 0 <= i < |k| ensures UpperChar(k[i]) == k[i] {
      assert k[i] in prefix || k[i] == '-' || k[i] in Decimal(n);
    }
  }

  // ---- deriving a prefix from a project name ----

  /** Length of the leading run of letters. */
  function RunLength(s: string): (n: nat)
    ensures n <= |s| && forall i :: 0 <= i < n ==> Letter(s[i])
    ensures n < |s| ==> !Letter(s[n])
  {
    if s != "" && Letter(s[0]) then 1 + RunLength(s[1..]) else 0
  }

  /** The maximal runs of letters, left to right. */
  function Words(s: string): (ws: seq<string>)
    ensures forall w :: w in ws ==> w != "" && forall c :: c in w ==> Letter(c)
    decreases |s|
  {
    if s == "" then []
    else
      var n := RunLength(s);
      if n == 0 then Words(s[1..]) else [s[..n]] + Words(s[n..])
  }

  function Consonants(s: string): (r: string)
    ensures |r| <= |s| && forall c :: c in r ==> c in s && !Vowel(c)
  {
    if s == "" then ""
    else (if Vowel(s[0]) then "" else [s[0]]) + Consonants(s[1..])
  }

  function Initials(ws: seq<string>): (r: string)
    requires forall w :: w in ws ==> w != "" && forall c :: c in w ==> Letter(c)
    ensures |r| == |ws| && forall c :: c in r ==> Capital(c)
  {
    if ws == [] then ""
    else
      assert ws[0] in ws && ws[0][0] in ws[0];
      assert forall w :: w in ws[1..] ==> w in ws;
      [UpperChar(ws[0][0])] + Initials(ws[1..])
  }

  function Take(s: string, n: nat): string {
    if |s| <= n then s else s[..n]
  }

  function DerivePrefix(name: string): (p: string)
    ensures 2 <= |p| <= 5 && forall c :: c in p ==> Capital(c)
  {
    var words := Words(name);
    if words == [] then "PROJ"
    else if |words| == 1 then
      assert words[0] in words;
      var w := Upper(words[0]);
      var cs := Consonants(w);
      var p := if |cs| >= 3 then Take(cs, 4) else Take(w, 4);
      assert forall c :: c in p ==> c in w;
      assert forall i :: 0 <= i < |w| ==> words[0][i] in words[0] && Capital(w[i]);
      if |p| < 2 then p + "X" else p
    else
      assert forall w :: w in Take5(words) ==> w in words;
      Initials(Take5(words))
  }

  function Take5(ws: seq<string>): (r: seq<string>) {
    if |ws| <= 5 then ws else ws[..5]
  }

  /** A run of letters between two other characters, or the ends, is one word. */
  lemma {:induction false} WordsAt(a: string, w: string, b: string)
    requires w != "" && forall c :: c in w ==> Letter(c)
    requires (a == "" || !Letter(a[|a| - 1])) && (b == "" || !Letter(b[0]))
    ensures Words(a + (w + b)) == Words(a) + [w] + Words(b)
    decreases |a|
  {
    assert Words("") == [];
    hide Words, Letter;
    if a == "" {
      FirstWord(w, b);
      assert a + (w + b) == w + b;
    } else {
      var k := if RunLength(a) == 0 then 1 else RunLength(a);
      SameRun(a, w + b);
      WordsFrom(a, w + b, k);
      LastOf(a, k);
      WordsAt(a[k..], w, b);
      Regroup(if RunLength(a) == 0 then [] else [a[..k]], Words(a[k..]), [w], Words(b));
    }
  }

  lemma Regroup(s: seq<string>, t: seq<string>, u: seq<string>, v: seq<string>)
    ensures s + (t + u + v) == s + t + u + v
  {
  }

  lemma LastOf(a: string, k: nat)
    requires k <= |a|
    ensures k < |a| ==> a[k..][|a[k..]| - 1] == a[|a| - 1]
  {
  }

  lemma FirstWord(w: string, b: string)
    requires w != "" && (forall c :: c in w ==> Letter(c)) && (b == "" || !Letter(b[0]))
    ensures Words(w + b) == [w] + Words(b)
  {
    var s := w + b;
    var n := RunLength(s);
    assert forall i :: 0 <= i < |w| ==> s[i] == w[i] && s[i] in w;
    assert b != "" ==> s[|w|] == b[0];
    assert s[..n] == w && s[n..] == b;
  }

  /** Peeling the first run, or one other character, off a text that goes on. */
  lemma WordsFrom(a: string, rest: string, k: nat)
    requires a != "" && RunLength(a + rest) == RunLength(a) < |a|
    requires k == if RunLength(a) == 0 then 1 else RunLength(a)
    ensures Words(a + rest) == (if RunLength(a) == 0 then [] else [a[..k]]) + Words(a[k..] + rest)
    ensures Words(a) == (if RunLength(a) == 0 then [] else [a[..k]]) + Words(a[k..])
  {
    assert (a + rest)[k..] == a[k..] + rest && (a + rest)[..k] == a[..k];
  }

  lemma SameRun(a: string, rest: string)
    requires a != "" && !Letter(a[|a| - 1])
    ensures RunLength(a + rest) == RunLength(a) < |a|
  {
    var m, n := RunLength(a), RunLength(a + rest);
    assert (a + rest)[|a| - 1] == a[|a| - 1];
    assert m < |a| && n < |a|;
    assert (a + rest)[m] == a[m] && (a + rest)[n] == a[n];
  }

  lemma {:induction false} NoWords(s: string)
    requires forall c :: c in s ==> !Letter(c)
    ensures Words(s) == []
    decreases |s|
  {
    if s != "" {
      assert s[0] in s;
      NoWords(s[1..]);
    }
  }

  /** Consonants leaves out the vowels and nothing else. */
  lemma {:induction false} ConsonantsConcat(s: string, t: string)
    ensures Consonants(s + t) == Consonants(s) + Consonants(t)
    decreases |s|
  {
    assert Consonants("") == "";
    hide Consonants, Vowel;
    if s == "" {
      assert s + t == t;
    } else {
      ConsonantsConcat(s[1..], t);
      ConsonantsFrom(s, t);
      Associates(if Vowel(s[0]) then "" else [s[0]], Consonants(s[1..]), Consonants(t));
    }
  }

  lemma Associates(s: string, t: string, u: string)
    ensures s + (t + u) == s + t + u
  {
  }

  lemma ConsonantsFrom(s: string, t: string)
    requires s != ""
    ensures var first := if Vowel(s[0]) then "" else [s[0]];
      && Consonants(s + t) == first + Consonants(s[1..] + t)
      && Consonants(s) == first + Consonants(s[1..])
  {
    hide Vowel;
    assert (s + t)[1..] == s[1..] + t && (s + t)[0] == s[0];
  }

  lemma OneConsonant(c: char)
    ensures Consonants([c]) == if c in {'A', 'E', 'I', 'O', 'U'} then "" else [c]
  {
    assert Vowel(c) <==> c in {'A', 'E', 'I', 'O', 'U'};
    assert Consonants([c][1..]) == "";
  }

  lemma {:induction false} InitialsAt(ws: seq<string>, i: nat)
    requires forall w :: w in ws ==> w != "" && forall c :: c in w ==> Letter(c)
    requires i < |ws|
    ensures ws[i] in ws && Initials(ws)[i] == UpperChar(ws[i][0])
    decreases |ws|
  {
    if i > 0 {
      assert forall w :: w in ws[1..] ==> w in ws;
      InitialsAt(ws[1..], i - 1);
    }
  }

  /** Several words give their first five initials; one word its first four
      consonants, or its first four letters when it has less than three consonants;
      a single letter is filled up with X. */
  lemma DerivePrefixMeaning(name: string)
    ensures var (ws, p) := (Words(name), DerivePrefix(name));
      && (|ws| == 0 ==> p == "PROJ")
      && (|ws| == 1 ==>
            var (w, cs) := (Upper(ws[0]), Consonants(Upper(ws[0])));
            && (|cs| >= 3 ==> p <= cs && |p| == if |cs| < 4 then |cs| else 4)
            && (|cs| < 3 && |w| >= 2 ==> p <= w && |p| == if |w| < 4 then |w| else 4)
            && (|w| == 1 ==> p == w + "X"))
      && (|ws| >= 2 ==>
            && |p| == (if |ws| < 5 then |ws| else 5)
            && forall i :: 0 <= i < |p| ==> ws[i] in ws && p[i] == UpperChar(ws[i][0]))
  {
    var ws := Words(name);
    if |ws| >= 2 {
      var first := Take5(ws);
      assert forall w :: w in first ==> w in ws;
      forall i | 0 <= i < |first| ensures ws[i] in ws && Initials(first)[i] == UpperChar(ws[i][0]) {
        InitialsAt(first, i);
      }
    } else if |ws| == 1 {
      assert ws[0] in ws;
    }
  }

  // ---- making it unique ----

  function Candidate(base: string, i: nat): string {
    base + Decimal(i)
  }

  lemma CandidateInjective(base: string, i: nat, j: nat)
    requires Candidate(base, i) == Candidate(base, j)
    ensures i == j
  {
    assert Candidate(base, i)[|base|..] == Decimal(i);
    assert Candidate(base, j)[|base|..] == Decimal(j);
    DecimalInjective(i, j);
  }

  /** `p` is the first free one of base, base2, base3, ... */
  ghost predicate FirstFree(base: string, existing: set<string>, p: string) {
    && p !in existing
    && (p == base || (base in existing && exists k: nat ::
          2 <= k && p == Candidate(base, k) && forall j: nat :: 2 <= j < k ==> Candidate(base, j) in existing))
  }

  /** The base itself, or the base with the first number from 2 on that is free. */
  lemma FirstFreeMeaning(base: string, existing: set<string>, p: string) returns (k: nat)
    requires FirstFree(base, existing, p)
    ensures p !in existing && k >= 1 && p == if k == 1 then base else base + Decimal(k)
    ensures k > 1 ==> base in existing && forall j: nat :: 2 <= j < k ==> base + Decimal(j) in existing
  {
    if p == base {
      k := 1;
    } else {
      k :| 2 <= k && p == Candidate(base, k) && forall j: nat :: 2 <= j < k ==> Candidate(base, j) in existing;
      forall j: nat | 2 <= j < k ensures base + Decimal(j) in existing {
        assert Candidate(base, j) in existing;
      }
    }
  }

  lemma FirstFreeUnique(base: string, existing: set<string>, p: string, q: string)
    requires FirstFree(base, existing, p) && FirstFree(base, existing, q)
    ensures p == q
  {
  }

  /** Every name tried before the current one, which is the base when i == 2 and
      the candidate numbered i - 1 otherwise. */
  ghost predicate TriedBefore(base: string, i: nat, tried: set<string>) {
    forall t :: t in tried ==> i > 2 && (t == base || exists j: nat :: 2 <= j < i - 1 && t == Candidate(base, j))
  }

  lemma NotTriedYet(base: string, i: nat, prefix: string, tried: set<string>)
    requires i >= 2 && TriedBefore(base, i, tried)
    requires prefix == if i == 2 then base else Candidate(base, i - 1)
    ensures prefix !in tried
    ensures TriedBefore(base, i + 1, tried + {prefix})
  {
    forall j: nat | 2 <= j < i - 1 ensures Candidate(base, j) != Candidate(base, i - 1) {
      if Candidate(base, j) == Candidate(base, i - 1) {
        CandidateInjective(base, j, i - 1);
      }
    }
  }

  method UniquePrefix(base: string, existing: set<string>) returns (prefix: string)
    ensures FirstFree(base, existing, prefix)
  {
    prefix := base;
    var i := 2;
    ghost var tried: set<string> := {};
    while prefix in existing
      invariant i >= 2
      invariant forall j: nat :: 2 <= j < i - 1 ==> Candidate(base, j) in existing
      invariant if i == 2 then prefix == base else base in existing && prefix == Candidate(base, i - 1)
      invariant tried <= existing && TriedBefore(base, i, tried)
      decreases existing - tried
    {
      NotTriedYet(base, i, prefix, tried);
      tried := tried + {prefix};
      prefix := Candidate(base, i);
      i := i + 1;
    }
  }

  /** A free name exists, so specifications may speak of "the" first free one. */
  lemma {:induction false} FirstFreeExists(base: string, existing: set<string>)
    ensures exists p :: FirstFree(base, existing, p)
  {
    if base in existing {
      var k := FreeIndex(base, existing, 2, existing);
      assert FirstFree(base, existing, Candidate(base, k));
    } else {
      assert FirstFree(base, existing, base);
    }
  }

  lemma {:induction false} FreeIndex(base: string, existing: set<string>, i: nat, left: set<string>) returns (k: nat)
    requires 2 <= i && forall j: nat :: i <= j && Candidate(base, j) in existing ==> Candidate(base, j) in left
    requires forall j: nat :: 2 <= j < i ==> Candidate(base, j) in existing
    ensures 2 <= k && Candidate(base, k) !in existing
    ensures forall j: nat :: 2 <= j < k ==> Candidate(base, j) in existing
    decreases left
  {
    if Candidate(base, i) !in existing {
      k := i;
    } else {
      forall j: nat | i + 1 <= j && Candidate(base, j) in existing
        ensures Candidate(base, j) in left - {Candidate(base, i)}
      {
        if Candidate(base, j) == Candidate(base, i) {
          CandidateInjective(base, i, j);
        }
      }
      k := FreeIndex(base, existing, i + 1, left - {Candidate(base, i)});
    }
  }

  /** What the first free name looks like when the base is a derived prefix. */
  lemma FirstFreeIsPlain(name: string, existing: set<string>, p: string)
    requires FirstFree(DerivePrefix(name), existing, p)
    ensures PlainPrefix(p) && '-' !in p
  {
    var base := DerivePrefix(name);
    forall c | c in p ensures Capital(c) || '0' <= c <= '9' {
      if p != base {
        var k: nat :| 2 <= k && p == Candidate(base, k);
        assert c in base || c in Decimal(k);
      }
    }
  }
}
