/** The clean-up applied to the generated summary before it is returned:
    the text is trimmed, then three global regular-expression replacements
    with "" run in turn, for the patterns `**`, `#+` and `_`. Each step only
    deletes characters. The step order matters: deleting `#` and `_` after
    `**` can bring two stars together again, so the clean-up is not
    idempotent. */
module Cleanup {
  import opened Strings

  /** The characters the clean-up may delete. */
  predicate IsMarkup(c: char) {
    c == '*' || c == '#' || c == '_'
  }

  /** The characters of `s` that are not markup, in order. */
  function PlainText(s: string): (r: string)
    ensures forall i :: 0 <= i < |r| ==> !IsMarkup(r[i])
  {
    if s == [] then []
    else if IsMarkup(s[0]) then PlainText(s[1..])
    else [s[0]] + PlainText(s[1..])
  }

  lemma {:induction false} PlainTextAppend(a: string, b: string)
    ensures PlainText(a + b) == PlainText(a) + PlainText(b)
    decreases |a|
  {
    if a == [] {
      assert a + b == b;
    } else {
      assert (a + b)[1..] == a[1..] + b;
      PlainTextAppend(a[1..], b);
    }
  }

  /** No two neighbouring characters of `s` are both `*`. */
  predicate NoDoubleStar(s: string) {
    forall i :: 0 <= i < |s| - 1 ==> !(s[i] == '*' && s[i + 1] == '*')
  }

  /** The global replacement of `**` by "": scanning left to right, each
      `**` found is deleted and scanning resumes after it. */
  function StripBold(s: string): (r: string)
    ensures Subseq(r, s)
    ensures NoDoubleStar(r)
    ensures s != [] && s[0] != '*' ==> r != [] && r[0] == s[0]
    decreases |s|
  {
    if |s| >= 2 && s[0] == '*' && s[1] == '*' then
      StripBold(s[2..])
    else if s == [] then []
    else
      var r := [s[0]] + StripBold(s[1..]);
      assert r[1..] == StripBold(s[1..]);
      r
  }

  /** A run of `k` stars. */
  function Stars(k: nat): (r: string)
    ensures |r| == k
    ensures forall i :: 0 <= i < k ==> r[i] == '*'
  {
    if k == 0 then [] else ['*'] + Stars(k - 1)
  }

  /** A maximal run of `k` stars comes out of StripBold as `k % 2` stars. */
  lemma {:induction false} StripBoldRun(k: nat, t: string)
    requires t == [] || t[0] != '*'
    ensures StripBold(Stars(k) + t) == Stars(k % 2) + StripBold(t)
    decreases k
  {
    var s := Stars(k) + t;
    if k >= 2 {
      assert s[0] == '*' && s[1] == '*';
      assert s[2..] == Stars(k - 2) + t;
      StripBoldRun(k - 2, t);
      assert (k - 2) % 2 == k % 2;
    } else if k == 1 {
      assert s == ['*'] + t;
      assert s[1..] == t;
      assert |s| < 2 || s[1] != '*';
      assert StripBold(s) == ['*'] + StripBold(t);
    } else {
      assert s == t;
    }
  }

  /** StripBold works on the two sides of a cut separately when the cut does
      not fall inside a run of stars. */
  lemma {:induction false} StripBoldSplit(u: string, v: string)
    requires u == [] || u[|u| - 1] != '*'
    ensures StripBold(u + v) == StripBold(u) + StripBold(v)
    decreases |u|, 1
  {
    if u == [] {
      assert u + v == v;
    } else if |u| >= 2 && u[0] == '*' && u[1] == '*' {
      StripBoldSplitDrop(u, v);
    } else {
      StripBoldSplitKeep(u, v);
    }
  }

  lemma {:induction false} StripBoldSplitDrop(u: string, v: string)
    requires |u| >= 2 && u[0] == '*' && u[1] == '*' && u[|u| - 1] != '*'
    ensures StripBold(u + v) == StripBold(u) + StripBold(v)
    decreases |u|, 0
  {
    var w := u + v;
    assert w[0] == '*' && w[1] == '*';
    assert w[2..] == u[2..] + v;
    StripBoldSplit(u[2..], v);
    StripBoldDrop(w);
    StripBoldDrop(u);
  }

  lemma {:induction false} StripBoldSplitKeep(u: string, v: string)
    requires u != [] && u[|u| - 1] != '*' && !(|u| >= 2 && u[0] == '*' && u[1] == '*')
    ensures StripBold(u + v) == StripBold(u) + StripBold(v)
    decreases |u|, 0
  {
    var w := u + v;
    assert w[0] == u[0] && (|u| >= 2 ==> w[1] == u[1]);
    assert w[1..] == u[1..] + v;
    StripBoldSplit(u[1..], v);
    StripBoldKeep(w);
    StripBoldKeep(u);
    assert [u[0]] + (StripBold(u[1..]) + StripBold(v)) == ([u[0]] + StripBold(u[1..])) + StripBold(v);
  }

  /** One step of StripBold at a leading `**`. */
  lemma StripBoldDrop(w: string)
    requires |w| >= 2 && w[0] == '*' && w[1] == '*'
    ensures StripBold(w) == StripBold(w[2..])
  {
  }

  /** One step of StripBold at a character it keeps. */
  lemma StripBoldKeep(w: string)
    requires w != [] && !(|w| >= 2 && w[0] == '*' && w[1] == '*')
    ensures StripBold(w) == [w[0]] + StripBold(w[1..])
  {
  }

  /** Every maximal run of `k` stars, wherever it stands, comes out of
      StripBold as `k % 2` stars, and the text on either side is handled on
      its own. */
  lemma StripBoldRunAnywhere(u: string, k: nat, t: string)
    requires u == [] || u[|u| - 1] != '*'
    requires t == [] || t[0] != '*'
    ensures StripBold(u + Stars(k) + t) == StripBold(u) + Stars(k % 2) + StripBold(t)
  {
    assert u + Stars(k) + t == u + (Stars(k) + t);
    StripBoldSplit(u, Stars(k) + t);
    StripBoldRun(k, t);
  }

  /** StripBold deletes stars in pairs and keeps every other character. */
  lemma StripBoldDeletesStarPairs(s: string)
    ensures PlainText(StripBold(s)) == PlainText(s)
    ensures (Count(s, '*') - Count(StripBold(s), '*')) % 2 == 0
    ensures Count(StripBold(s), '*') <= Count(s, '*')
    ensures |s| - |StripBold(s)| == Count(s, '*') - Count(StripBold(s), '*')
  {
    StripBoldKeepsPlainText(s);
    StripBoldStarCount(s);
    var k: nat :| Count(s, '*') == Count(StripBold(s), '*') + 2 * k;
    EvenDifference(Count(s, '*'), Count(StripBold(s), '*'), k);
  }

  lemma EvenDifference(a: int, b: int, k: nat)
    requires a == b + 2 * k
    ensures (a - b) % 2 == 0 && b <= a
  {
  }

  /** StripBold keeps every character that is not markup, in order. */
  lemma {:induction false} StripBoldKeepsPlainText(s: string)
    ensures PlainText(StripBold(s)) == PlainText(s)
    decreases |s|
  {
    if |s| >= 2 && s[0] == '*' && s[1] == '*' {
      StripBoldKeepsPlainText(s[2..]);
      assert s[1..][1..] == s[2..];
    } else if s != [] {
      StripBoldKeepsPlainText(s[1..]);
      assert ([s[0]] + StripBold(s[1..]))[1..] == StripBold(s[1..]);
    }
  }

  /** The stars StripBold deletes are an even number, and they are all it deletes. */
  lemma {:induction false} StripBoldStarCount(s: string)
    ensures exists k: nat :: Count(s, '*') == Count(StripBold(s), '*') + 2 * k
    ensures |s| - |StripBold(s)| == Count(s, '*') - Count(StripBold(s), '*')
    decreases |s|
  {
    if |s| >= 2 && s[0] == '*' && s[1] == '*' {
      StripBoldStarCount(s[2..]);
      var k: nat :| Count(s[2..], '*') == Count(StripBold(s[2..]), '*') + 2 * k;
      assert s[1..][1..] == s[2..];
      assert Count(s, '*') == Count(StripBold(s), '*') + 2 * (k + 1);
    } else if s != [] {
      StripBoldStarCount(s[1..]);
      var k: nat :| Count(s[1..], '*') == Count(StripBold(s[1..]), '*') + 2 * k;
      assert ([s[0]] + StripBold(s[1..]))[1..] == StripBold(s[1..]);
      assert Count(s, '*') == Count(StripBold(s), '*') + 2 * k;
    } else {
      assert Count(s, '*') == Count(StripBold(s), '*') + 2 * 0;
    }
  }

  /** The length of the run of `c` at the start of `s`. */
  function RunLength(s: string, c: char): (n: nat)
    ensures n <= |s|
    ensures forall i :: 0 <= i < n ==> s[i] == c
    ensures n == |s| || s[n] != c
  {
    if s == [] || s[0] != c then 0 else 1 + RunLength(s[1..], c)
  }

  /** The global replacement of the pattern `c+` by "": each maximal run of
      `c` is matched and deleted. */
  function StripRuns(s: string, c: char): (r: string)
    ensures c !in r
    ensures |r| <= |s|
    ensures s != [] && s[0] != c ==> r != [] && r[0] == s[0]
    decreases |s|
  {
    if s == [] then []
    else if s[0] == c then StripRuns(s[RunLength(s, c)..], c)
    else [s[0]] + StripRuns(s[1..], c)
  }

  /** Deleting a prefix made only of `c` does not change `Without(_, c)`. */
  lemma {:induction false} WithoutDropsRun(s: string, c: char, n: nat)
    requires n <= |s|
    requires forall i :: 0 <= i < n ==> s[i] == c
    ensures Without(s[n..], c) == Without(s, c)
    decreases n
  {
    if n > 0 {
      WithoutDropsRun(s[1..], c, n - 1);
      assert s[1..][n - 1..] == s[n..];
    }
  }

  /** Deleting every maximal run of `c` deletes exactly the `c` characters. */
  lemma {:induction false} StripRunsIsWithout(s: string, c: char)
    ensures StripRuns(s, c) == Without(s, c)
    decreases |s|
  {
    if s != [] {
      if s[0] == c {
        var n := RunLength(s, c);
        StripRunsIsWithout(s[n..], c);
        WithoutDropsRun(s, c, n);
      } else {
        StripRunsIsWithout(s[1..], c);
      }
    }
  }

  /** Deleting markup characters does not change the plain text. */
  lemma {:induction false} PlainTextWithout(s: string, c: char)
    requires IsMarkup(c)
    ensures PlainText(Without(s, c)) == PlainText(s)
    decreases |s|
  {
    if s != [] {
      PlainTextWithout(s[1..], c);
      if s[0] != c {
        assert ([s[0]] + Without(s[1..], c))[1..] == Without(s[1..], c);
      }
    }
  }

  /** The three global deletions, in the order the handler applies them. */
  function StripMarkdown(s: string): (r: string)
    ensures Subseq(r, s)
    ensures '#' !in r && '_' !in r
    ensures PlainText(r) == PlainText(s)
  {
    var bold := StripBold(s);
    var hashes := StripRuns(bold, '#');
    StripRunsIsWithout(bold, '#');
    var r := Without(hashes, '_');
    assert '#' !in r by {
      forall i | 0 <= i < |r| ensures r[i] != '#' {
        WithoutKeepsAbsence(hashes, '_', '#', i);
      }
    }
    SubseqTrans(hashes, bold, s);
    SubseqTrans(r, hashes, s);
    StripBoldDeletesStarPairs(s);
    PlainTextWithout(bold, '#');
    PlainTextWithout(hashes, '_');
    r
  }

  /** A character absent from `s` stays absent after deleting another one. */
  lemma {:induction false} WithoutKeepsAbsence(s: string, c: char, d: char, i: nat)
    requires d !in s
    requires i < |Without(s, c)|
    ensures Without(s, c)[i] != d
    decreases |s|
  {
    if s[0] == c {
      WithoutKeepsAbsence(s[1..], c, d, i);
    } else if i > 0 {
      WithoutKeepsAbsence(s[1..], c, d, i - 1);
    }
  }

  /** Text without stars passes through StripBold unchanged. */
  lemma {:induction false} StripBoldPrefix(a: string, t: string)
    requires '*' !in a
    ensures StripBold(a + t) == a + StripBold(t)
    decreases |a|
  {
    if a == [] {
      assert a + t == t;
    } else {
      var s := a + t;
      assert s[0] == a[0] && a[0] != '*';
      assert s[1..] == a[1..] + t;
      StripBoldPrefix(a[1..], t);
      calc {
        StripBold(s);
        [a[0]] + StripBold(a[1..] + t);
        [a[0]] + (a[1..] + StripBold(t));
        ([a[0]] + a[1..]) + StripBold(t);
        { assert [a[0]] + a[1..] == a; }
        a + StripBold(t);
      }
    }
  }

  /** Deleting a character that does not occur changes nothing. */
  lemma {:induction false} WithoutAbsent(s: string, c: char)
    requires c !in s
    ensures Without(s, c) == s
    decreases |s|
  {
    if s != [] {
      WithoutAbsent(s[1..], c);
      assert [s[0]] + s[1..] == s;
    }
  }

  /** A phrase in bold followed by plain text comes out as the two plain
      parts, markers removed, for example `**Q3 Roadmap** Discussion held.`
      becomes `Q3 Roadmap Discussion held.`. */
  lemma BoldPhraseStripped(phrase: string, rest: string)
    requires forall i :: 0 <= i < |phrase| ==> !IsMarkup(phrase[i])
    requires forall i :: 0 <= i < |rest| ==> !IsMarkup(rest[i])
    ensures StripMarkdown("**" + phrase + "**" + rest) == phrase + rest
  {
    var s := "**" + phrase + "**" + rest;
    assert s[2..] == phrase + ("**" + rest);
    StripBoldPrefix(phrase, "**" + rest);
    assert ("**" + rest)[2..] == rest;
    StripBoldPrefix(rest, []);
    assert rest + [] == rest;
    var plain := phrase + rest;
    assert StripBold(s) == plain;
    assert '#' !in plain && '_' !in plain;
    StripRunsIsWithout(plain, '#');
    WithoutAbsent(plain, '#');
    WithoutAbsent(plain, '_');
  }

  /** The summary returned to the browser: the generated text trimmed, then
      stripped of markup. */
  function CleanSummary(generated: string): (r: string)
    ensures Subseq(r, Trim(generated))
    ensures '#' !in r && '_' !in r
    ensures PlainText(r) == PlainText(Trim(generated))
  {
    StripMarkdown(Trim(generated))
  }

  /** The clean-up is not idempotent: `*_*` loses its underscore and leaves
      a `**`, which a second clean-up would delete. */
  lemma CleanupNotIdempotent()
    ensures StripMarkdown("*_*") == "**"
    ensures StripMarkdown(StripMarkdown("*_*")) == ""
    ensures exists s :: StripMarkdown(StripMarkdown(s)) != StripMarkdown(s)
  {
    assert StripBold("*_*") == "*_*" by {
      assert "*_*"[1..] == "_*";
      assert "_*"[1..] == "*";
      assert "*"[1..] == [];
    }
    assert StripRuns("*_*", '#') == "*_*" by {
      assert "*_*"[1..] == "_*";
      assert "_*"[1..] == "*";
      assert "*"[1..] == [];
    }
    assert Without("*_*", '_') == "**" by {
      assert "*_*"[1..] == "_*";
      assert "_*"[1..] == "*";
      assert "*"[1..] == [];
    }
    assert StripBold("**") == "" by {
      assert "**"[2..] == [];
    }
  }
}
