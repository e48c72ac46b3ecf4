/** The description clean-up, a split on whitespace followed by a join with
    spaces: the words of s, in order, separated by single spaces. */
module Whitespace {
  import opened Chars

  /** A word of `str.split()`: non-empty and free of whitespace. */
  predicate IsWord(w: string) {
    |w| > 0 && AllIn(w, 0, |w|, NonSpace)
  }

  /** The shape `' '.join(...)` of words produces: whitespace occurs only as
      single SPACE characters between two non-whitespace characters. */
  predicate IsNormalized(s: string) {
    (forall i | 0 <= i < |s| && IsSpace(s[i]) :: s[i] == ' ')
    && (|s| > 0 ==> !IsSpace(s[0]) && !IsSpace(s[|s| - 1]))
    && (forall i | 0 <= i < |s| - 1 :: !IsSpace(s[i]) || !IsSpace(s[i + 1]))
  }

  /** `str.split()` with no separator: the maximal runs of non-whitespace. */
  function Words(s: string): (ws: seq<string>)
    ensures forall i | 0 <= i < |ws| :: IsWord(ws[i])
    decreases |s|
  {
    if s == [] then []
    else if IsSpace(s[0]) then Words(s[1..])
    else
      var k := RunEnd(s, 0, NonSpace);
      [s[..k]] + Words(s[k..])
  }

  /** `' '.join(ws)`. */
  function Join(ws: seq<string>): string {
    if |ws| == 0 then ""
    else if |ws| == 1 then ws[0]
    else ws[0] + " " + Join(ws[1..])
  }

  /** Split on whitespace, then join with single spaces: the result is always
      normalized. */
  function Normalize(s: string): (r: string)
    ensures IsNormalized(r)
  {
    JoinIsNormalized(Words(s));
    Join(Words(s))
  }

  lemma WordIsNormalized(w: string)
    requires IsWord(w)
    ensures IsNormalized(w)
  {
  }

  /** Gluing two normalized non-empty strings with one space keeps the shape. */
  lemma GlueIsNormalized(a: string, b: string)
    requires IsNormalized(a) && IsNormalized(b) && |a| > 0 && |b| > 0
    ensures IsNormalized(a + " " + b)
  {
    var s := a + " " + b;
    forall i | 0 <= i < |s| - 1
      ensures !IsSpace(s[i]) || !IsSpace(s[i + 1])
    {
      if i < |a| - 1 {
        assert s[i] == a[i] && s[i + 1] == a[i + 1];
      } else if i == |a| - 1 {
        assert s[i] == a[|a| - 1];
      } else if i == |a| {
        assert s[i + 1] == b[0];
      } else {
        assert s[i] == b[i - |a| - 1] && s[i + 1] == b[i - |a|];
      }
    }
    forall i | 0 <= i < |s| && IsSpace(s[i])
      ensures s[i] == ' '
    {
      if i < |a| {
        assert s[i] == a[i];
      } else if i > |a| {
        assert s[i] == b[i - |a| - 1];
      }
    }
    assert s[0] == a[0] && s[|s| - 1] == b[|b| - 1];
  }

  lemma {:induction false} JoinIsNormalized(ws: seq<string>)
    requires forall i | 0 <= i < |ws| :: IsWord(ws[i])
    ensures IsNormalized(Join(ws))
    ensures |ws| > 0 ==> |Join(ws)| > 0
  {
    if |ws| == 1 {
      WordIsNormalized(ws[0]);
    } else if |ws| > 1 {
      JoinIsNormalized(ws[1..]);
      WordIsNormalized(ws[0]);
      GlueIsNormalized(ws[0], Join(ws[1..]));
    }
  }

  /** A word followed by nothing or by whitespace splits off as one word. */
  lemma WordsOfWordThen(w: string, t: string)
    requires IsWord(w)
    requires t == [] || IsSpace(t[0])
    ensures Words(w + t) == [w] + Words(t)
  {
    var s := w + t;
    assert AllIn(s, 0, |w|, NonSpace) by {
      forall j | 0 <= j < |w| ensures InClass(s[j], NonSpace) {
        assert s[j] == w[j];
      }
    }
    RunEndExact(s, 0, |w|, NonSpace);
    assert s[..|w|] == w && s[|w|..] == t;
  }

  /** Splitting a joined list of words gives the words back. */
  lemma {:induction false} WordsOfJoin(ws: seq<string>)
    requires forall i | 0 <= i < |ws| :: IsWord(ws[i])
    ensures Words(Join(ws)) == ws
  {
    if |ws| == 1 {
      WordsOfWordThen(ws[0], "");
      assert ws[0] + "" == ws[0];
    } else if |ws| > 1 {
      var rest := Join(ws[1..]);
      WordsOfJoin(ws[1..]);
      WordsOfWordThen(ws[0], " " + rest);
      assert (" " + rest)[1..] == rest;
      assert ws[0] + " " + rest == ws[0] + (" " + rest);
      assert [ws[0]] + ws[1..] == ws;
    }
  }

  /** Normalizing changes only whitespace: the words are kept, in order. */
  lemma NormalizeKeepsWords(s: string)
    ensures Words(Normalize(s)) == Words(s)
  {
    WordsOfJoin(Words(s));
  }

  /** Normalizing twice is normalizing once. */
  lemma NormalizeIdempotent(s: string)
    ensures Normalize(Normalize(s)) == Normalize(s)
  {
    NormalizeKeepsWords(s);
  }

  /** A normalized string is left as it is; with Normalize's own ensures this
      says Normalize(s) == s exactly when s is normalized. */
  lemma {:induction false} NormalizeFixesNormalized(s: string)
    requires IsNormalized(s)
    ensures Normalize(s) == s
    decreases |s|
  {
    if s != [] {
      var k := RunEnd(s, 0, NonSpace);
      assert Words(s) == [s[..k]] + Words(s[k..]);
      if k == |s| {
        assert s[k..] == [];
        assert s[..k] == s;
      } else {
        // s[k] is a single space followed by a non-space character
        assert s[k] == ' ';
        assert k != |s| - 1;
        var rest := s[k + 1..];
        assert s[k..][1..] == rest;
        assert Words(s[k..]) == Words(rest);
        assert IsNormalized(rest) by {
          forall i | 0 <= i < |rest| - 1
            ensures !IsSpace(rest[i]) || !IsSpace(rest[i + 1])
          {
            assert rest[i] == s[k + 1 + i] && rest[i + 1] == s[k + 2 + i];
          }
          forall i | 0 <= i < |rest| && IsSpace(rest[i])
            ensures rest[i] == ' '
          {
            assert rest[i] == s[k + 1 + i];
          }
          assert rest[0] == s[k + 1];
          assert rest[|rest| - 1] == s[|s| - 1];
        }
        NormalizeFixesNormalized(rest);
        assert Words(rest) != [] by {
          assert IsWord(s[..k]);
          assert !IsSpace(rest[0]);
        }
        var ws := Words(s);
        assert |ws| > 1;
        assert ws[1..] == Words(rest);
        assert Join(ws) == s[..k] + " " + rest;
        assert s == s[..k] + " " + rest;
      }
    }
  }

  /** Leading whitespace produces no word. */
  lemma {:induction false} WordsSkipsSpace(sp: string, t: string)
    requires AllIn(sp, 0, |sp|, Space)
    ensures Words(sp + t) == Words(t)
    decreases |sp|
  {
    if sp == [] {
      assert sp + t == t;
    } else {
      var s := sp + t;
      assert s[0] == sp[0] && IsSpace(s[0]);
      assert s[1..] == sp[1..] + t;
      assert AllIn(sp[1..], 0, |sp| - 1, Space) by {
        forall i | 0 <= i < |sp| - 1 ensures InClass(sp[1..][i], Space) {
          assert sp[1..][i] == sp[i + 1];
        }
      }
      WordsSkipsSpace(sp[1..], t);
    }
  }

  /** Any run of whitespace between two words becomes a single space. */
  lemma NormalizeTwoWords(a: string, sp: string, b: string)
    requires IsWord(a) && IsWord(b) && |sp| > 0 && AllIn(sp, 0, |sp|, Space)
    ensures Normalize(a + sp + b) == a + " " + b
  {
    assert (sp + b)[0] == sp[0] && IsSpace(sp[0]);
    WordsOfWordThen(a, sp + b);
    WordsSkipsSpace(sp, b);
    WordsOfWordThen(b, "");
    assert b + "" == b;
    assert a + sp + b == a + (sp + b);
    assert Words(a + sp + b) == [a, b];
    assert [a, b][1..] == [b];
    assert Join([a, b]) == a + " " + Join([b]);
  }
}
