/** SQLite's `LIKE` operator without an ESCAPE clause, as SQLAlchemy's
    `column.contains(x)` uses it: `column LIKE '%' || x || '%'`. `%` matches any
    run of characters, `_` any one character, and letters compare without regard
    to case for ASCII only. */
module SqlLike {
  import opened Common

  predicate CharLike(a: char, b: char) {
    FoldAscii(a) == FoldAscii(b)
  }

  /** `t LIKE p`. */
  predicate Like(t: string, p: string)
    decreases |t| + |p|
  {
    if |p| == 0 then |t| == 0
    else if p[0] == '%' then Like(t, p[1..]) || (|t| > 0 && Like(t[1..], p))
    else |t| > 0 && (p[0] == '_' || CharLike(t[0], p[0])) && Like(t[1..], p[1..])
  }

  /** SQLAlchemy's `contains`: the LIKE pattern `%x%`. */
  predicate ContainsLike(t: string, x: string) {
    Like(t, "%" + x + "%")
  }

  /** A lone `%` matches every text. */
  lemma {:induction false} PercentMatchesAll(t: string)
    ensures Like(t, "%")
    decreases |t|
  {
    assert "%"[1..] == "";
    if |t| > 0 {
      PercentMatchesAll(t[1..]);
    }
  }

  /** A pattern matches every text that begins with the pattern itself and then
      goes on, once a trailing `%` is added. */
  lemma {:induction false} PrefixMatches(q: string, r: string)
    ensures Like(q + r, q + "%")
    decreases |q|
  {
    if |q| == 0 {
      assert q + r == r && q + "%" == "%";
      PercentMatchesAll(r);
    } else {
      var t := q + r;
      var p := q + "%";
      assert t[1..] == q[1..] + r;
      assert p[1..] == q[1..] + "%";
      PrefixMatches(q[1..], r);
      if q[0] == '%' {
        // `%` matching exactly the one character it stands for in the text
        assert Like(t[1..], p[1..]);
        assert |p| > 0;
        LikeLeadingPercent(t[1..], p);
      }
    }
  }

  /** A leading `%` may match zero characters. */
  lemma LikeLeadingPercent(t: string, p: string)
    requires |p| > 0 && p[0] == '%'
    requires Like(t, p[1..])
    ensures Like(t, p)
  {
  }

  /** `%q` matches `t` exactly when `q` matches some suffix of `t`. */
  lemma {:induction false} LeadingPercentSuffix(t: string, q: string, k: nat)
    requires k <= |t|
    requires Like(t[k..], q)
    ensures Like(t, "%" + q)
    decreases k
  {
    var p := "%" + q;
    assert p[1..] == q;
    if k == 0 {
      assert t[0..] == t;
    } else {
      assert t[1..][k - 1..] == t[k..];
      LeadingPercentSuffix(t[1..], q, k - 1);
    }
  }

  /** Every literal occurrence of `x` in the text satisfies `contains(x)`,
      wildcards in `x` included. */
  lemma OccurrenceMatches(t: string, x: string, k: nat)
    requires OccursAt(t, x, k)
    ensures ContainsLike(t, x)
  {
    var r := t[k + |x|..];
    assert t[k..] == x + r;
    PrefixMatches(x, r);
    assert "%" + x + "%" == "%" + (x + "%");
    LeadingPercentSuffix(t, x + "%", k);
  }

  /** A character above ASCII in the pattern that is neither wildcard must appear
      literally in any text the pattern matches. */
  lemma {:induction false} WideCharMustOccur(t: string, p: string, j: nat)
    requires j < |p| && p[j] > '~'
    requires Like(t, p)
    ensures exists i :: 0 <= i < |t| && t[i] == p[j]
    decreases |t| + |p|
  {
    if p[0] == '%' {
      if Like(t, p[1..]) {
        WideCharMustOccur(t, p[1..], j - 1);
      } else {
        WideCharMustOccur(t[1..], p, j);
        var i :| 0 <= i < |t[1..]| && t[1..][i] == p[j];
        assert t[i + 1] == p[j];
      }
    } else if j == 0 {
      assert t[0] == p[0];
    } else {
      WideCharMustOccur(t[1..], p[1..], j - 1);
      var i :| 0 <= i < |t[1..]| && t[1..][i] == p[1..][j - 1];
      assert t[i + 1] == p[j];
    }
  }

  /** `contains(x)` never holds of an ASCII-only text when `x` has a character
      above ASCII. */
  lemma WideNeedleNeverMatchesAscii(t: string, x: string, j: nat)
    requires forall i | 0 <= i < |t| :: t[i] <= '~'
    requires j < |x| && x[j] > '~'
    ensures !ContainsLike(t, x)
  {
    if ContainsLike(t, x) {
      var p := "%" + x + "%";
      assert p[j + 1] == x[j];
      WideCharMustOccur(t, p, j + 1);
      assert false;
    }
  }
}
