/**
 * `String.prototype.replace` with a string pattern: only the first occurrence
 * is replaced. With a string replacement, ECMAScript's GetSubstitution expands
 * `$$`, `$&`, `` $` `` and `$'` in the replacement text (section 22.1.3.19.1 of
 * ECMA-262); `ReplaceFirst` is the literal replacement.
 */
module Replace {
  import opened Outcomes
  import opened Strings

  /** `pat` occurs at `i` and nowhere before it. */
  predicate FirstAt(s: string, pat: string, i: nat) {
    OccursAt(s, pat, i) && forall j :: 0 <= j < i ==> !OccursAt(s, pat, j)
  }

  /** In `a + pat`, the first occurrence of `pat` is the one after `a`. */
  predicate NotFoundBefore(a: string, pat: string) {
    forall j :: 0 <= j < |a| ==> !OccursAt(a + pat, pat, j)
  }

  /** The replacement text `s` stands for once GetSubstitution has expanded its `$` patterns. */
  function Expand(rep: string, matched: string, before: string, after: string): string
    decreases |rep|
  {
    if |rep| == 0 then ""
    else if rep[0] == '$' && |rep| >= 2 && rep[1] == '$' then "$" + Expand(rep[2..], matched, before, after)
    else if rep[0] == '$' && |rep| >= 2 && rep[1] == '&' then matched + Expand(rep[2..], matched, before, after)
    else if rep[0] == '$' && |rep| >= 2 && rep[1] == '`' then before + Expand(rep[2..], matched, before, after)
    else if rep[0] == '$' && |rep| >= 2 && rep[1] == '\'' then after + Expand(rep[2..], matched, before, after)
    else [rep[0]] + Expand(rep[1..], matched, before, after)
  }

  /** `s.replace(pat, rep)` as JavaScript evaluates it for a string `rep`. */
  function ReplaceFirstAsWritten(s: string, pat: string, rep: string): string {
    match IndexOf(s, pat)
    case None => s
    case Some(i) => s[..i] + Expand(rep, pat, s[..i], s[i + |pat|..]) + s[i + |pat|..]
  }

  /**
   * The first occurrence of `pat` replaced by exactly `rep`: what `s.replace(pat, () => rep)`
   * computes, and `s.replace(pat, rep)` whenever `rep` holds no `$`.
   */
  function ReplaceFirst(s: string, pat: string, rep: string): (r: string)
    ensures !Contains(s, pat) ==> r == s
    ensures forall i: nat :: FirstAt(s, pat, i) ==> r == s[..i] + rep + s[i + |pat|..]
  {
    match IndexOf(s, pat)
    case None => s
    case Some(i) =>
      assert forall k: nat :: FirstAt(s, pat, k) ==> k == i;
      s[..i] + rep + s[i + |pat|..]
  }

  // ---------------------------------------------------------------------------
  // Properties

  /** Without `$` the replacement text is used as it is. */
  lemma {:induction false} ExpandPlain(rep: string, matched: string, before: string, after: string)
    requires '$' !in rep
    ensures Expand(rep, matched, before, after) == rep
  {
    if |rep| > 0 {
      ExpandPlain(rep[1..], matched, before, after);
      assert [rep[0]] + rep[1..] == rep;
    }
  }

  /** Text without `$` in front of the replacement is kept as it is; expansion goes on after it. */
  lemma {:induction false} ExpandAfterPlain(a: string, b: string, matched: string, before: string, after: string)
    requires '$' !in a
    ensures Expand(a + b, matched, before, after) == a + Expand(b, matched, before, after)
    decreases |a|
  {
    if |a| == 0 {
      assert a + b == b;
    } else {
      assert (a + b)[0] == a[0] && (a + b)[1..] == a[1..] + b;
      ExpandAfterPlain(a[1..], b, matched, before, after);
      assert [a[0]] + a[1..] == a;
    }
  }

  /** The two replacements agree whenever the replacement holds no `$`. */
  lemma ReplaceAgreesWithoutDollar(s: string, pat: string, rep: string)
    requires '$' !in rep
    ensures ReplaceFirstAsWritten(s, pat, rep) == ReplaceFirst(s, pat, rep)
  {
    if IndexOf(s, pat).Some? {
      var i := IndexOf(s, pat).value;
      ExpandPlain(rep, pat, s[..i], s[i + |pat|..]);
    }
  }

  /** `$&` stands for the matched text. */
  lemma ExpandDollarAmpersand(rep: string, tail: string, matched: string, before: string, after: string)
    requires rep == "$&"
    ensures Expand(rep + tail, matched, before, after) == matched + Expand(tail, matched, before, after)
  {
    var s := rep + tail;
    assert s[0] == '$' && s[1] == '&' && s[2..] == tail;
  }

  /** A text that is the pattern itself is replaced as a whole. */
  lemma ReplaceWhole(s: string, pat: string, rep: string)
    requires s == pat && |pat| > 0
    ensures ReplaceFirstAsWritten(s, pat, rep) == Expand(rep, pat, "", "")
    ensures ReplaceFirst(s, pat, rep) == rep
  {
    assert OccursAt(s, pat, 0);
    assert IndexOf(s, pat) == Some(0);
    assert FirstAt(s, pat, 0);
    assert s[..0] == "" && s[|pat|..] == "";
  }

  /** A replacement `$&` puts back the placeholder it was meant to replace. */
  lemma DollarAmpersandRestoresPattern(s: string, pat: string, rep: string)
    requires s == pat && |pat| > 0 && rep == "$&"
    ensures ReplaceFirstAsWritten(s, pat, rep) == pat
    ensures ReplaceFirst(s, pat, rep) == rep
  {
    assert OccursAt(s, pat, 0);
    assert IndexOf(s, pat) == Some(0);
    assert FirstAt(s, pat, 0);
    assert Expand(rep, pat, "", "") == pat + Expand("", pat, "", "");
  }

  /** A placeholder whose first occurrence follows `a` is filled in place: `a` and `b` are untouched. */
  lemma ReplaceAfter(a: string, pat: string, b: string, rep: string)
    requires NotFoundBefore(a, pat)
    ensures ReplaceFirst(a + pat + b, pat, rep) == a + rep + b
  {
    var s := a + pat + b;
    assert s[|a|..|a| + |pat|] == pat;
    forall j | 0 <= j < |a|
      ensures !OccursAt(s, pat, j)
    {
      assert !OccursAt(a + pat, pat, j);
      assert s[..|a| + |pat|] == a + pat;
      if j + |pat| <= |s| {
        assert s[j..j + |pat|] == (a + pat)[j..j + |pat|];
      }
    }
    assert FirstAt(s, pat, |a|);
    assert s[..|a|] == a && s[|a| + |pat|..] == b;
  }
}
