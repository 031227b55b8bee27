/** The column-label normaliser of standardize_column_names (camel_to_snake): a fixed chain
    of six rewrites over ASCII labels, and what the chain guarantees about its output. */
module Labels {

  predicate IsUpper(c: char) { 'A' <= c <= 'Z' }
  predicate IsLower(c: char) { 'a' <= c <= 'z' }
  predicate IsDigit(c: char) { '0' <= c <= '9' }
  predicate IsLetter(c: char) { IsUpper(c) || IsLower(c) }

  /** The pair class of r"([a-z0-9])([A-Z])". */
  predicate CaseBoundary(a: char, b: char) { (IsLower(a) || IsDigit(a)) && IsUpper(b) }

  /** The pair class of r"([A-Za-z])([0-9])". */
  predicate DigitBoundary(a: char, b: char) { IsLetter(a) && IsDigit(b) }

  /** Two underscores side by side. */
  predicate DoubleUnderscore(a: char, b: char) { a == '_' && b == '_' }

  // ---------------------------------------------------------------------------------------
  // The six rewrites
  // ---------------------------------------------------------------------------------------

  /** Python's str.replace: scan left to right and replace every non-overlapping occurrence. */
  function ReplaceAll(s: string, pat: string, rep: string): string
    requires pat != []
    decreases |s|
  {
    if |s| < |pat| then s
    else if s[..|pat|] == pat then rep + ReplaceAll(s[|pat|..], pat, rep)
    else [s[0]] + ReplaceAll(s[1..], pat, rep)
  }

  /** re.sub(r"(X)(Y)", r"\1_\2", s) for one-character classes X and Y, whose pairs are p:
      the scanner tries each position from the left, and a match consumes both characters. */
  function SubPairs(s: string, p: (char, char) -> bool): string
    decreases |s|
  {
    if |s| < 2 then s
    else if p(s[0], s[1]) then [s[0], '_', s[1]] + SubPairs(s[2..], p)
    else [s[0]] + SubPairs(s[1..], p)
  }

  /** ASCII str.lower(). */
  function LowerChar(c: char): char
  {
    if IsUpper(c) then (c as int + 32) as char else c
  }

  function Lower(s: string): string
  {
    seq(|s|, i requires 0 <= i < |s| => LowerChar(s[i]))
  }

  /** re.sub(r"__+", "_", s): an underscore followed by another underscore is dropped, so each
      run of two or more underscores becomes one. */
  function Squeeze(s: string): string
    decreases |s|
  {
    if |s| < 2 then s
    else if s[0] == '_' && s[1] == '_' then Squeeze(s[1..])
    else [s[0]] + Squeeze(s[1..])
  }

  function TrimStart(s: string): string
    decreases |s|
  {
    if |s| > 0 && s[0] == '_' then TrimStart(s[1..]) else s
  }

  function TrimEnd(s: string): string
    decreases |s|
  {
    if |s| > 0 && s[|s| - 1] == '_' then TrimEnd(s[..|s| - 1]) else s
  }

  /** str.strip("_"). */
  function Strip(s: string): string
  {
    TrimEnd(TrimStart(s))
  }

  /** The acronym repairs of the last step, as data, applied in order by ApplyRepairs. */
  const Repairs: seq<(string, string)> := [("b_m_i", "bmi"), ("f_e_v_1", "fev1")]

  predicate NonEmptyPatterns(rs: seq<(string, string)>)
  {
    forall k :: 0 <= k < |rs| ==> rs[k].0 != []
  }

  function ApplyRepairs(s: string, rs: seq<(string, string)>): string
    requires NonEmptyPatterns(rs)
    decreases |rs|
  {
    if rs == [] then s else ApplyRepairs(ReplaceAll(s, rs[0].0, rs[0].1), rs[1..])
  }

  /** The first five rewrites: spaces, case boundaries, letter/digit boundaries, lower-casing,
      underscore clean-up. */
  function Tokenise(name: string): (r: string)
    ensures forall c :: c in r ==> c != ' ' && !IsUpper(c)
    ensures Tidy(r) && NoPair(r, DigitBoundary)
  {
    var spaced := ReplaceAll(name, " ", "_");
    var cased := SubPairs(spaced, CaseBoundary);
    var split := SubPairs(cased, DigitBoundary);
    var lowered := Lower(split);
    var squeezed := Squeeze(lowered);
    ReplaceRemoves(name, ' ', "_");
    SubPairsChars(spaced, CaseBoundary);
    SubPairsChars(cased, DigitBoundary);
    assert ' ' !in split;
    assert forall c :: c in lowered ==> c != ' ' && !IsUpper(c) by {
      forall c | c in lowered ensures c != ' ' && !IsUpper(c) {
        var j :| 0 <= j < |lowered| && lowered[j] == c;
        LowerCharFacts(split[j]);
      }
    }
    SqueezeChars(lowered);
    StripChars(squeezed);
    SubPairsClears(cased, DigitBoundary);
    LowerKeepsNoPair(split);
    SqueezeKeepsNoPair(lowered, DigitBoundary);
    StripKeepsNoPair(squeezed, DigitBoundary);
    SqueezeNoDouble(lowered);
    StripKeepsNoPair(squeezed, DoubleUnderscore);
    StripFacts(squeezed);
    Strip(squeezed)
  }

  /** camel_to_snake, as written: the result is snake case, with no space, no upper-case
      letter, no "__" and no "_" at either end. */
  function CamelToSnake(name: string): (r: string)
    ensures Tidy(r) && forall c :: c in r ==> c != ' ' && !IsUpper(c)
  {
    var s := Tokenise(name);
    RepairsKeepTidy(s, Repairs);
    ReplaceChars(s, "b_m_i", "bmi");
    ReplaceChars(ReplaceAll(s, "b_m_i", "bmi"), "f_e_v_1", "fev1");
    ApplyRepairs(s, Repairs)
  }

  /** The repairs with the one the comment on line 20 announces ("fev_1 -> fev1"), which the
      documented examples on lines 13-14 rely on. */
  const RepairedRepairs: seq<(string, string)> := Repairs + [("fev_1", "fev1")]

  /** camel_to_snake as documented: the six rewrites, then the repairs including "fev_1". */
  function CamelToSnakeRepaired(name: string): string
  {
    ApplyRepairs(Tokenise(name), RepairedRepairs)
  }

  // ---------------------------------------------------------------------------------------
  // Vocabulary for the properties
  // ---------------------------------------------------------------------------------------

  /** No two neighbouring characters of s form a pair of p. */
  predicate NoPair(s: string, p: (char, char) -> bool)
  {
    forall i :: 0 <= i < |s| - 1 ==> !p(s[i], s[i + 1])
  }

  /** pat occurs in s starting at position k. */
  predicate OccursAt(pat: string, s: string, k: nat)
  {
    k + |pat| <= |s| && s[k..k + |pat|] == pat
  }

  predicate Occurs(pat: string, s: string)
  {
    exists k: nat :: k <= |s| && OccursAt(pat, s, k)
  }

  /** No "__", and no "_" at either end. */
  predicate Tidy(s: string)
  {
    NoPair(s, DoubleUnderscore) && (s != [] ==> s[0] != '_' && s[|s| - 1] != '_')
  }

  /** Positions i and i + 1 of r both lie inside one occurrence of w. */
  predicate InsideOccurrence(r: string, w: string, i: nat)
  {
    exists j: nat :: j <= i && i + 2 <= j + |w| && OccursAt(w, r, j)
  }

  /** Every p-pair of r lies inside an occurrence of w in r. */
  predicate PairsWithin(r: string, w: string, p: (char, char) -> bool)
  {
    forall i: nat :: i < |r| - 1 && p(r[i], r[i + 1]) ==> InsideOccurrence(r, w, i)
  }

  /** A repair whose replacement begins and ends with the same characters as its pattern. */
  predicate EndsAgree(pat: string, rep: string)
  {
    pat != [] && rep != [] && rep[0] == pat[0] && rep[|rep| - 1] == pat[|pat| - 1]
  }

  /** A label the normaliser is meant to leave alone. */
  predicate Canonical(s: string)
  {
    && (forall i :: 0 <= i < |s| ==> IsLower(s[i]) || IsDigit(s[i]) || s[i] == '_')
    && Tidy(s)
    && NoPair(s, DigitBoundary)
    && !Occurs("b_m_i", s)
    && !Occurs("f_e_v_1", s)
  }

  /** Reference definition of the two regex passes: an underscore at every boundary where p
      holds. */
  function SplitEvery(s: string, p: (char, char) -> bool): string
    decreases |s|
  {
    if |s| < 2 then s
    else [s[0]] + (if p(s[0], s[1]) then "_" else "") + SplitEvery(s[1..], p)
  }

  // ---------------------------------------------------------------------------------------
  // Sequence helpers
  // ---------------------------------------------------------------------------------------

  lemma NoPairConcat(x: string, y: string, p: (char, char) -> bool)
    ensures NoPair(x + y, p) <==>
      NoPair(x, p) && NoPair(y, p) && (x != [] && y != [] ==> !p(x[|x| - 1], y[0]))
  {
    var xy := x + y;
    if NoPair(x, p) && NoPair(y, p) && (x != [] && y != [] ==> !p(x[|x| - 1], y[0])) {
      forall i | 0 <= i < |xy| - 1 ensures !p(xy[i], xy[i + 1]) {
        if i < |x| - 1 {
          assert xy[i] == x[i] && xy[i + 1] == x[i + 1];
        } else if i >= |x| {
          assert xy[i] == y[i - |x|] && xy[i + 1] == y[i - |x| + 1];
        }
      }
    }
    if NoPair(xy, p) {
      if x != [] && y != [] {
        assert xy[|x| - 1] == x[|x| - 1] && xy[|x|] == y[0];
      }
      forall i | 0 <= i < |x| - 1 ensures !p(x[i], x[i + 1]) {
        assert x[i] == xy[i] && x[i + 1] == xy[i + 1];
      }
      forall i | 0 <= i < |y| - 1 ensures !p(y[i], y[i + 1]) {
        assert y[i] == xy[|x| + i] && y[i + 1] == xy[|x| + i + 1];
      }
    }
  }

  lemma NoPairInfix(s: string, lo: nat, hi: nat, p: (char, char) -> bool)
    requires lo <= hi <= |s| && NoPair(s, p)
    ensures NoPair(s[lo..hi], p)
  {
    var t := s[lo..hi];
    forall i | 0 <= i < |t| - 1 ensures !p(t[i], t[i + 1]) {
      assert t[i] == s[lo + i] && t[i + 1] == s[lo + i + 1];
    }
  }

  lemma OccursHasChars(pat: string, s: string)
    ensures Occurs(pat, s) ==> forall c :: c in pat ==> c in s
  {
    if Occurs(pat, s) {
      var k: nat :| k <= |s| && OccursAt(pat, s, k);
      forall c | c in pat ensures c in s {
        var j :| 0 <= j < |pat| && pat[j] == c;
        assert s[k..k + |pat|][j] == s[k + j];
      }
    }
  }

  // ---------------------------------------------------------------------------------------
  // str.replace
  // ---------------------------------------------------------------------------------------

  lemma {:induction false} ReplaceAbsent(s: string, pat: string, rep: string)
    requires pat != [] && !Occurs(pat, s)
    ensures ReplaceAll(s, pat, rep) == s
    decreases |s|
  {
    if |s| >= |pat| {
      assert s[0..0 + |pat|] == s[..|pat|];
      assert !OccursAt(pat, s, 0);
      if Occurs(pat, s[1..]) {
        var k: nat :| k <= |s[1..]| && OccursAt(pat, s[1..], k);
        assert s[k + 1..k + 1 + |pat|] == s[1..][k..k + |pat|];
        assert OccursAt(pat, s, k + 1);
      }
      ReplaceAbsent(s[1..], pat, rep);
    }
  }

  /** A pattern holding a character the text lacks is never replaced. */
  lemma ReplaceMissingChar(s: string, pat: string, rep: string, c: char)
    requires pat != [] && c in pat && c !in s
    ensures ReplaceAll(s, pat, rep) == s
  {
    OccursHasChars(pat, s);
    ReplaceAbsent(s, pat, rep);
  }

  lemma {:induction false} ReplaceChars(s: string, pat: string, rep: string)
    requires pat != []
    ensures forall c :: c in ReplaceAll(s, pat, rep) ==> c in s || c in rep
    decreases |s|
  {
    if |s| >= |pat| {
      if s[..|pat|] == pat {
        ReplaceChars(s[|pat|..], pat, rep);
        assert forall c :: c in s[|pat|..] ==> c in s;
      } else {
        ReplaceChars(s[1..], pat, rep);
        assert forall c :: c in s[1..] ==> c in s;
      }
    }
  }

  /** Replacing a one-character pattern by text without that character removes it. */
  lemma {:induction false} ReplaceRemoves(s: string, x: char, rep: string)
    requires x !in rep
    ensures x !in ReplaceAll(s, [x], rep)
    decreases |s|
  {
    if |s| >= 1 {
      if s[..1] == [x] {
        ReplaceRemoves(s[1..], x, rep);
      } else {
        assert s[0] != x by { assert s[..1] == [s[0]]; }
        ReplaceRemoves(s[1..], x, rep);
      }
    }
  }

  lemma {:induction false} ReplaceKeepsEnds(s: string, pat: string, rep: string)
    requires EndsAgree(pat, rep)
    ensures var r := ReplaceAll(s, pat, rep);
      (r == [] <==> s == []) && (s != [] ==> r[0] == s[0] && r[|r| - 1] == s[|s| - 1])
    decreases |s|
  {
    var r := ReplaceAll(s, pat, rep);
    if |s| < |pat| {
      assert r == s;
    } else if s[..|pat|] == pat {
      var t := s[|pat|..];
      var rt := ReplaceAll(t, pat, rep);
      ReplaceKeepsEnds(t, pat, rep);
      assert r == rep + rt;
      assert s[0] == pat[0] by { assert s[..|pat|][0] == s[0]; }
      if t == [] {
        assert s[|s| - 1] == pat[|pat| - 1] by { assert s[..|pat|][|pat| - 1] == s[|s| - 1]; }
      } else {
        assert r[|r| - 1] == rt[|rt| - 1] && s[|s| - 1] == t[|t| - 1];
      }
    } else {
      var rt := ReplaceAll(s[1..], pat, rep);
      ReplaceKeepsEnds(s[1..], pat, rep);
      assert r == [s[0]] + rt;
      if rt != [] {
        assert r[|r| - 1] == rt[|rt| - 1] && s[|s| - 1] == s[1..][|s[1..]| - 1];
      }
    }
  }

  lemma {:induction false} ReplaceKeepsNoPair(s: string, pat: string, rep: string, p: (char, char) -> bool)
    requires EndsAgree(pat, rep) && NoPair(s, p) && NoPair(rep, p)
    ensures NoPair(ReplaceAll(s, pat, rep), p)
    decreases |s|
  {
    if |s| >= |pat| {
      if s[..|pat|] == pat {
        var t := s[|pat|..];
        NoPairInfix(s, |pat|, |s|, p);
        ReplaceKeepsNoPair(t, pat, rep, p);
        ReplaceKeepsEnds(t, pat, rep);
        if t != [] {
          assert s[|pat| - 1] == pat[|pat| - 1] && t[0] == s[|pat|];
        }
        NoPairConcat(rep, ReplaceAll(t, pat, rep), p);
      } else {
        NoPairInfix(s, 1, |s|, p);
        ReplaceKeepsNoPair(s[1..], pat, rep, p);
        ReplaceKeepsEnds(s[1..], pat, rep);
        NoPairConcat([s[0]], ReplaceAll(s[1..], pat, rep), p);
      }
    }
  }

  lemma PairsWithinAfterWord(w: string, r: string, p: (char, char) -> bool)
    requires w != [] && PairsWithin(r, w, p)
    requires r != [] ==> !p(w[|w| - 1], r[0])
    ensures PairsWithin(w + r, w, p)
  {
    var wr := w + r;
    forall i: nat | i < |wr| - 1 && p(wr[i], wr[i + 1]) ensures InsideOccurrence(wr, w, i) {
      if i < |w| - 1 {
        assert OccursAt(w, wr, 0);
      } else if i == |w| - 1 {
        assert false;
      } else {
        var i' := i - |w|;
        assert r[i'] == wr[i] && r[i' + 1] == wr[i + 1];
        assert InsideOccurrence(r, w, i');
        var j: nat :| j <= i' && i' + 2 <= j + |w| && OccursAt(w, r, j);
        assert wr[j + |w|..j + |w| + |w|] == r[j..j + |w|];
        assert OccursAt(w, wr, j + |w|);
      }
    }
  }

  lemma PairsWithinAfterChar(c: char, r: string, w: string, p: (char, char) -> bool)
    requires PairsWithin(r, w, p)
    requires r != [] ==> !p(c, r[0])
    ensures PairsWithin([c] + r, w, p)
  {
    var cr := [c] + r;
    forall i: nat | i < |cr| - 1 && p(cr[i], cr[i + 1]) ensures InsideOccurrence(cr, w, i) {
      if i == 0 {
        assert false;
      } else {
        var i' := i - 1;
        assert r[i'] == cr[i] && r[i' + 1] == cr[i + 1];
        assert InsideOccurrence(r, w, i');
        var j: nat :| j <= i' && i' + 2 <= j + |w| && OccursAt(w, r, j);
        assert cr[j + 1..j + 1 + |w|] == r[j..j + |w|];
        assert OccursAt(w, cr, j + 1);
      }
    }
  }

  /** Starting from a text free of p-pairs, every p-pair after the replacement sits inside
      some occurrence of the replacement text. */
  lemma {:induction false} ReplaceConfinesPairs(s: string, pat: string, rep: string, p: (char, char) -> bool)
    requires EndsAgree(pat, rep) && NoPair(s, p)
    ensures PairsWithin(ReplaceAll(s, pat, rep), rep, p)
    decreases |s|
  {
    if |s| < |pat| {
      assert PairsWithin(s, rep, p);
    } else if s[..|pat|] == pat {
      var t := s[|pat|..];
      NoPairInfix(s, |pat|, |s|, p);
      ReplaceConfinesPairs(t, pat, rep, p);
      ReplaceKeepsEnds(t, pat, rep);
      if t != [] {
        assert s[|pat| - 1] == pat[|pat| - 1] && t[0] == s[|pat|];
      }
      PairsWithinAfterWord(rep, ReplaceAll(t, pat, rep), p);
    } else {
      NoPairInfix(s, 1, |s|, p);
      ReplaceConfinesPairs(s[1..], pat, rep, p);
      ReplaceKeepsEnds(s[1..], pat, rep);
      PairsWithinAfterChar(s[0], ReplaceAll(s[1..], pat, rep), rep, p);
    }
  }

  /** Splitting the text after a character that does not occur in the pattern: no occurrence
      can straddle the split, so the two halves are rewritten independently. */
  lemma ConcatSlices(a: string, b: string, n: nat)
    requires n <= |a|
    ensures (a + b)[..n] == a[..n] && (a + b)[n..] == a[n..] + b
  {
  }

  lemma {:induction false} ReplaceConcat(a: string, b: string, pat: string, rep: string)
    requires pat != [] && a != [] && a[|a| - 1] !in pat
    ensures ReplaceAll(a + b, pat, rep) == ReplaceAll(a, pat, rep) + ReplaceAll(b, pat, rep)
    decreases |a|
  {
    var n := |pat|;
    if |a| >= n && a[..n] == pat {
      assert a[|a| - 1] != pat[n - 1];
      var t := a[n..];
      ConcatSlices(a, b, n);
      calc {
        ReplaceAll(a + b, pat, rep);
        rep + ReplaceAll(t + b, pat, rep);
        { ReplaceConcat(t, b, pat, rep); }
        rep + (ReplaceAll(t, pat, rep) + ReplaceAll(b, pat, rep));
        (rep + ReplaceAll(t, pat, rep)) + ReplaceAll(b, pat, rep);
        ReplaceAll(a, pat, rep) + ReplaceAll(b, pat, rep);
      }
    } else if |a + b| >= n {
      var t := a[1..];
      ConcatSlices(a, b, 1);
      assert (a + b)[..n] != pat by {
        if |a| >= n {
          ConcatSlices(a, b, n);
        } else {
          assert (a + b)[..n][|a| - 1] == a[|a| - 1];
        }
      }
      if t == [] {
        calc {
          ReplaceAll(a + b, pat, rep);
          [a[0]] + ReplaceAll(b, pat, rep);
          { assert ReplaceAll(a, pat, rep) == a; }
          ReplaceAll(a, pat, rep) + ReplaceAll(b, pat, rep);
        }
      } else {
        calc {
          ReplaceAll(a + b, pat, rep);
          [a[0]] + ReplaceAll(t + b, pat, rep);
          { ReplaceConcat(t, b, pat, rep); }
          [a[0]] + (ReplaceAll(t, pat, rep) + ReplaceAll(b, pat, rep));
          ([a[0]] + ReplaceAll(t, pat, rep)) + ReplaceAll(b, pat, rep);
          ReplaceAll(a, pat, rep) + ReplaceAll(b, pat, rep);
        }
      }
    } else {
      assert ReplaceAll(b, pat, rep) == b;
    }
  }

  // ---------------------------------------------------------------------------------------
  // The two regex passes
  // ---------------------------------------------------------------------------------------

  lemma {:induction false} SubPairsChars(s: string, p: (char, char) -> bool)
    ensures forall c :: c in SubPairs(s, p) ==> c in s || c == '_'
    decreases |s|
  {
    if |s| >= 2 {
      if p(s[0], s[1]) {
        SubPairsChars(s[2..], p);
        assert forall c :: c in s[2..] ==> c in s;
      } else {
        SubPairsChars(s[1..], p);
        assert forall c :: c in s[1..] ==> c in s;
      }
    }
  }

  lemma SubPairsFirst(s: string, p: (char, char) -> bool)
    requires s != []
    ensures SubPairs(s, p) != [] && SubPairs(s, p)[0] == s[0]
  {
  }

  /** When the second character of a pair can never begin another pair, the scanning regex
      pass is the same as inserting an underscore at every boundary. */
  lemma {:induction false} SubPairsIsEveryBoundary(s: string, p: (char, char) -> bool)
    requires forall a, b, c :: p(a, b) ==> !p(b, c)
    ensures SubPairs(s, p) == SplitEvery(s, p)
    decreases |s|
  {
    if |s| >= 2 {
      if p(s[0], s[1]) {
        SubPairsIsEveryBoundary(s[2..], p);
        var t := s[1..];
        if |t| >= 2 {
          assert !p(t[0], t[1]);
          assert t[1..] == s[2..];
          assert SplitEvery(t, p) == [s[1]] + SplitEvery(s[2..], p);
        } else {
          assert SplitEvery(t, p) == [s[1]] && s[2..] == [];
        }
      } else {
        SubPairsIsEveryBoundary(s[1..], p);
      }
    }
  }

  /** The regex pass leaves no pair behind, provided a pair's second character never begins
      another pair and no pair involves an underscore. */
  lemma {:induction false} SubPairsClears(s: string, p: (char, char) -> bool)
    requires forall a, b, c :: p(a, b) ==> !p(b, c)
    requires forall x :: !p(x, '_') && !p('_', x)
    ensures NoPair(SubPairs(s, p), p)
    decreases |s|
  {
    if |s| >= 2 {
      if p(s[0], s[1]) {
        var rest := SubPairs(s[2..], p);
        SubPairsClears(s[2..], p);
        if s[2..] != [] {
          SubPairsFirst(s[2..], p);
          assert !p(s[1], s[2]);
        }
        NoPairConcat([s[1]], rest, p);
        NoPairConcat(['_'], [s[1]] + rest, p);
        NoPairConcat([s[0]], ['_'] + [s[1]] + rest, p);
        assert [s[0], '_', s[1]] + rest == [s[0]] + (['_'] + ([s[1]] + rest));
      } else {
        SubPairsClears(s[1..], p);
        SubPairsFirst(s[1..], p);
        NoPairConcat([s[0]], SubPairs(s[1..], p), p);
      }
    }
  }

  lemma {:induction false} SubPairsIdentity(s: string, p: (char, char) -> bool)
    requires NoPair(s, p)
    ensures SubPairs(s, p) == s
    decreases |s|
  {
    if |s| >= 2 {
      NoPairInfix(s, 1, |s|, p);
      SubPairsIdentity(s[1..], p);
    }
  }

  /** Splitting the text where no pair straddles the split. */
  lemma {:induction false} SubPairsConcat(a: string, b: string, p: (char, char) -> bool)
    requires a != [] && (b != [] ==> !p(a[|a| - 1], b[0]))
    ensures SubPairs(a + b, p) == SubPairs(a, p) + SubPairs(b, p)
    decreases |a|
  {
    if |a| == 1 {
      var ab := a + b;
      if b != [] {
        SubPairsStep(ab, p);
        assert ab[1..] == b;
      } else {
        assert ab == a;
      }
    } else if p(a[0], a[1]) {
      if |a| > 2 {
        SubPairsConcat(a[2..], b, p);
      } else {
        assert a[2..] + b == b;
      }
      ConcatAfterPair(a, b, p);
    } else {
      SubPairsConcat(a[1..], b, p);
      ConcatAfterOne(a, b, p);
    }
  }

  lemma ConcatAfterPair(a: string, b: string, p: (char, char) -> bool)
    requires |a| >= 2 && p(a[0], a[1])
    requires SubPairs(a[2..] + b, p) == SubPairs(a[2..], p) + SubPairs(b, p)
    ensures SubPairs(a + b, p) == SubPairs(a, p) + SubPairs(b, p)
  {
    var ab := a + b;
    assert ab[0] == a[0] && ab[1] == a[1] && ab[2..] == a[2..] + b;
    SubPairsStep(ab, p);
    SubPairsStep(a, p);
  }

  lemma ConcatAfterOne(a: string, b: string, p: (char, char) -> bool)
    requires |a| >= 2 && !p(a[0], a[1])
    requires SubPairs(a[1..] + b, p) == SubPairs(a[1..], p) + SubPairs(b, p)
    ensures SubPairs(a + b, p) == SubPairs(a, p) + SubPairs(b, p)
  {
    var ab := a + b;
    assert ab[0] == a[0] && ab[1] == a[1] && ab[1..] == a[1..] + b;
    SubPairsStep(ab, p);
    SubPairsStep(a, p);
  }

  /** One step of the scanner. */
  lemma SubPairsStep(s: string, p: (char, char) -> bool)
    requires |s| >= 2
    ensures p(s[0], s[1]) ==> SubPairs(s, p) == [s[0], '_', s[1]] + SubPairs(s[2..], p)
    ensures !p(s[0], s[1]) ==> SubPairs(s, p) == [s[0]] + SubPairs(s[1..], p)
  {
  }

  // ---------------------------------------------------------------------------------------
  // Lower-casing, underscore clean-up, strip
  // ---------------------------------------------------------------------------------------

  lemma LowerCharFacts(c: char)
    ensures !IsUpper(LowerChar(c))
    ensures IsLetter(LowerChar(c)) <==> IsLetter(c)
    ensures IsDigit(LowerChar(c)) <==> IsDigit(c)
    ensures LowerChar(c) == ' ' <==> c == ' '
    ensures LowerChar(c) == '_' <==> c == '_'
    ensures !IsUpper(c) ==> LowerChar(c) == c
  {
  }

  lemma LowerKeepsNoPair(s: string)
    requires NoPair(s, DigitBoundary)
    ensures NoPair(Lower(s), DigitBoundary)
  {
    var t := Lower(s);
    forall i | 0 <= i < |t| - 1 ensures !DigitBoundary(t[i], t[i + 1]) {
      LowerCharFacts(s[i]);
      LowerCharFacts(s[i + 1]);
    }
  }

  lemma LowerIdentity(s: string)
    requires forall i :: 0 <= i < |s| ==> !IsUpper(s[i])
    ensures Lower(s) == s
  {
  }

  lemma LowerConcat(a: string, b: string)
    ensures Lower(a + b) == Lower(a) + Lower(b)
  {
  }

  lemma {:induction false} SqueezeFirst(s: string)
    ensures |Squeeze(s)| <= |s| && (Squeeze(s) == [] <==> s == [])
    ensures s != [] ==> Squeeze(s)[0] == s[0]
    decreases |s|
  {
    if |s| >= 2 {
      SqueezeFirst(s[1..]);
    }
  }

  lemma {:induction false} SqueezeChars(s: string)
    ensures forall c :: c in Squeeze(s) ==> c in s
    decreases |s|
  {
    if |s| >= 2 {
      SqueezeChars(s[1..]);
      assert forall c :: c in s[1..] ==> c in s;
    }
  }

  /** Squeezing only ever puts side by side two characters that were already neighbours. */
  lemma {:induction false} SqueezeKeepsNoPair(s: string, p: (char, char) -> bool)
    requires NoPair(s, p)
    ensures NoPair(Squeeze(s), p)
    decreases |s|
  {
    if |s| >= 2 {
      NoPairInfix(s, 1, |s|, p);
      SqueezeKeepsNoPair(s[1..], p);
      if !(s[0] == '_' && s[1] == '_') {
        SqueezeFirst(s[1..]);
        NoPairConcat([s[0]], Squeeze(s[1..]), p);
      }
    }
  }

  lemma {:induction false} SqueezeNoDouble(s: string)
    ensures NoPair(Squeeze(s), DoubleUnderscore)
    decreases |s|
  {
    if |s| >= 2 {
      SqueezeNoDouble(s[1..]);
      if !(s[0] == '_' && s[1] == '_') {
        SqueezeFirst(s[1..]);
        NoPairConcat([s[0]], Squeeze(s[1..]), DoubleUnderscore);
      }
    }
  }

  lemma {:induction false} SqueezeIdentity(s: string)
    requires NoPair(s, DoubleUnderscore)
    ensures Squeeze(s) == s
    decreases |s|
  {
    if |s| >= 2 {
      NoPairInfix(s, 1, |s|, DoubleUnderscore);
      SqueezeIdentity(s[1..]);
    }
  }

  lemma {:induction false} SqueezeConcat(a: string, b: string)
    requires a != [] && a[|a| - 1] != '_'
    ensures Squeeze(a + b) == Squeeze(a) + Squeeze(b)
    decreases |a|
  {
    var ab := a + b;
    if |a| == 1 {
      if |b| >= 1 {
        assert ab[1..] == b;
      }
    } else {
      assert ab[1..] == a[1..] + b;
      SqueezeConcat(a[1..], b);
    }
  }

  lemma {:induction false} TrimStartFacts(s: string)
    ensures |TrimStart(s)| <= |s| && TrimStart(s) == s[|s| - |TrimStart(s)|..]
    ensures TrimStart(s) != [] ==> TrimStart(s)[0] != '_'
    decreases |s|
  {
    if |s| > 0 && s[0] == '_' {
      TrimStartFacts(s[1..]);
    }
  }

  lemma {:induction false} TrimEndFacts(s: string)
    ensures |TrimEnd(s)| <= |s| && TrimEnd(s) == s[..|TrimEnd(s)|]
    ensures TrimEnd(s) != [] ==> TrimEnd(s)[|TrimEnd(s)| - 1] != '_'
    decreases |s|
  {
    if |s| > 0 && s[|s| - 1] == '_' {
      TrimEndFacts(s[..|s| - 1]);
    }
  }

  /** Strip returns an infix of its argument with no underscore at either end. */
  lemma StripFacts(s: string)
    ensures exists lo: nat :: OccursAt(Strip(s), s, lo)
    ensures Strip(s) != [] ==> Strip(s)[0] != '_' && Strip(s)[|Strip(s)| - 1] != '_'
  {
    var u := TrimStart(s);
    TrimStartFacts(s);
    TrimEndFacts(u);
    var lo := |s| - |u|;
    assert OccursAt(Strip(s), s, lo);
  }

  lemma StripKeepsNoPair(s: string, p: (char, char) -> bool)
    requires NoPair(s, p)
    ensures NoPair(Strip(s), p)
  {
    StripFacts(s);
    var lo: nat :| OccursAt(Strip(s), s, lo);
    NoPairInfix(s, lo, lo + |Strip(s)|, p);
  }

  lemma StripChars(s: string)
    ensures forall c :: c in Strip(s) ==> c in s
  {
    StripFacts(s);
    var lo: nat :| OccursAt(Strip(s), s, lo);
    forall c | c in Strip(s) ensures c in s {
      var j :| 0 <= j < |Strip(s)| && Strip(s)[j] == c;
      assert s[lo + j] == c;
    }
  }

  lemma StripIdentity(s: string)
    requires s != [] ==> s[0] != '_' && s[|s| - 1] != '_'
    ensures Strip(s) == s
  {
  }

  // ---------------------------------------------------------------------------------------
  // The repairs
  // ---------------------------------------------------------------------------------------

  /** A repair that cannot undo tidiness: it keeps the ends and inserts no "__". */
  predicate TidyRepair(r: (string, string))
  {
    EndsAgree(r.0, r.1) && NoPair(r.1, DoubleUnderscore)
  }

  lemma {:induction false} RepairsKeepTidy(s: string, rs: seq<(string, string)>)
    requires NonEmptyPatterns(rs) && forall k :: 0 <= k < |rs| ==> TidyRepair(rs[k])
    requires Tidy(s)
    ensures Tidy(ApplyRepairs(s, rs))
    decreases |rs|
  {
    if rs != [] {
      var t := ReplaceAll(s, rs[0].0, rs[0].1);
      ReplaceKeepsNoPair(s, rs[0].0, rs[0].1, DoubleUnderscore);
      ReplaceKeepsEnds(s, rs[0].0, rs[0].1);
      RepairsKeepTidy(t, rs[1..]);
    }
  }

  /** Running two lists of repairs one after the other is running their concatenation. */
  lemma {:induction false} RepairsAppend(s: string, rs: seq<(string, string)>, more: seq<(string, string)>)
    requires NonEmptyPatterns(rs) && NonEmptyPatterns(more)
    ensures NonEmptyPatterns(rs + more)
    ensures ApplyRepairs(s, rs + more) == ApplyRepairs(ApplyRepairs(s, rs), more)
    decreases |rs|
  {
    if rs != [] {
      assert (rs + more)[0] == rs[0];
      assert (rs + more)[1..] == rs[1..] + more;
      RepairsAppend(ReplaceAll(s, rs[0].0, rs[0].1), rs[1..], more);
    } else {
      assert rs + more == more;
    }
  }

  lemma {:induction false} RepairsAbsent(s: string, rs: seq<(string, string)>)
    requires NonEmptyPatterns(rs)
    requires forall k :: 0 <= k < |rs| ==> !Occurs(rs[k].0, s)
    ensures ApplyRepairs(s, rs) == s
    decreases |rs|
  {
    if rs != [] {
      ReplaceAbsent(s, rs[0].0, rs[0].1);
      RepairsAbsent(s, rs[1..]);
    }
  }

  // ---------------------------------------------------------------------------------------
  // What the normaliser guarantees
  // ---------------------------------------------------------------------------------------

  lemma Fev1Pair(r: string, i: nat)
    requires i < |r| - 1 && DigitBoundary(r[i], r[i + 1]) && InsideOccurrence(r, "fev1", i)
    ensures 2 <= i && r[i - 2..i + 2] == "fev1"
  {
    var j: nat :| j <= i && i + 2 <= j + 4 && OccursAt("fev1", r, j);
    assert r[i] == r[j..j + 4][i - j] && r[i + 1] == r[j..j + 4][i - j + 1];
  }

  /** Lines 21-26: no letter stands directly before a digit, except where the "f_e_v_1" repair
      produced "fev1". */
  lemma NormalisedLetterDigitOnlyInFev1(name: string)
    ensures var r := CamelToSnake(name);
      forall i: nat :: i < |r| - 1 && DigitBoundary(r[i], r[i + 1]) ==>
        2 <= i && r[i - 2..i + 2] == "fev1"
  {
    var s := Tokenise(name);
    var t := ReplaceAll(s, "b_m_i", "bmi");
    ReplaceKeepsNoPair(s, "b_m_i", "bmi", DigitBoundary);
    var r := ReplaceAll(t, "f_e_v_1", "fev1");
    ReplaceConfinesPairs(t, "f_e_v_1", "fev1", DigitBoundary);
    assert CamelToSnake(name) == r;
    forall i: nat | i < |r| - 1 && DigitBoundary(r[i], r[i + 1])
      ensures 2 <= i && r[i - 2..i + 2] == "fev1"
    {
      Fev1Pair(r, i);
    }
  }

  /** A canonical label is returned unchanged (lines 17-26, each rewrite is the identity). */
  lemma CanonicalUnchanged(s: string)
    requires Canonical(s)
    ensures CamelToSnake(s) == s
  {
    CanonicalTokenised(s);
    RepairsAbsent(s, Repairs);
  }

  /** Lines 17-24 leave a canonical label alone. */
  lemma CanonicalTokenised(s: string)
    requires Canonical(s)
    ensures Tokenise(s) == s
  {
    CanonicalShape(s);
    ReplaceMissingChar(s, " ", "_", ' ');
    assert ReplaceAll(s, " ", "_") == s;
    SubPairsIdentity(s, CaseBoundary);
    SubPairsIdentity(s, DigitBoundary);
    LowerIdentity(s);
    SqueezeIdentity(s);
    StripIdentity(s);
  }

  lemma CanonicalShape(s: string)
    requires Canonical(s)
    ensures ' ' !in s && NoPair(s, CaseBoundary) && forall i :: 0 <= i < |s| ==> !IsUpper(s[i])
  {
  }

  /** The corrected normaliser keeps the guarantees of lines 17-24: no space, no upper case,
      no "__", no "_" at either end. */
  lemma RepairedIsTidy(name: string)
    ensures var r := CamelToSnakeRepaired(name);
      Tidy(r) && forall c :: c in r ==> c != ' ' && !IsUpper(c)
  {
    var s := Tokenise(name);
    RepairsKeepTidy(s, RepairedRepairs);
    var t := ReplaceAll(s, "b_m_i", "bmi");
    ReplaceChars(s, "b_m_i", "bmi");
    var u := ReplaceAll(t, "f_e_v_1", "fev1");
    ReplaceChars(t, "f_e_v_1", "fev1");
    ReplaceChars(u, "fev_1", "fev1");
    RepairsAppend(s, Repairs, [("fev_1", "fev1")]);
    assert ApplyRepairs(s, Repairs) == u;
    assert CamelToSnakeRepaired(name) == ReplaceAll(u, "fev_1", "fev1");
  }

  /** The corrected normaliser also leaves a canonical label alone, unless it spells "fev_1". */
  lemma CanonicalRepairedUnchanged(s: string)
    requires Canonical(s) && !Occurs("fev_1", s)
    ensures CamelToSnakeRepaired(s) == s
  {
    CanonicalUnchanged(s);
    RepairsAppend(Tokenise(s), Repairs, [("fev_1", "fev1")]);
    ReplaceAbsent(s, "fev_1", "fev1");
    assert ApplyRepairs(s, [("fev_1", "fev1")]) == ReplaceAll(s, "fev_1", "fev1");
  }
}
