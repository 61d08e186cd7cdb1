/** PostgreSQL's `ILIKE` pattern match, restricted to ASCII case folding, and
    its meaning for the `%filter%` patterns the search methods bind: a
    case-insensitive substring test. */
module ILike {

  /** ASCII lower-casing. */
  function Lower(c: char): char {
    if 'A' <= c <= 'Z' then (c as int + 32) as char else c
  }

  /** Two characters that are equal once case is ignored. */
  predicate SameLetter(a: char, b: char) {
    Lower(a) == Lower(b)
  }

  /** `t ILIKE p`: `%` matches any run of characters, `_` matches any one
      character, and every other character matches itself regardless of
      case. */
  predicate Like(t: string, p: string)
    decreases |t| + |p|
  {
    if |p| == 0 then |t| == 0
    else if p[0] == '%' then Like(t, p[1..]) || (|t| > 0 && Like(t[1..], p))
    else |t| > 0 && (p[0] == '_' || SameLetter(t[0], p[0])) && Like(t[1..], p[1..])
  }

  /** Text with no wildcard character in it and no backslash, PostgreSQL's
      default escape character for LIKE, so that each of its characters
      stands for itself. */
  predicate Literal(f: string) {
    forall i :: 0 <= i < |f| ==> f[i] != '%' && f[i] != '_' && f[i] != '\\'
  }

  /** `f` is a prefix of `t`, ignoring case. */
  predicate PrefixCI(f: string, t: string) {
    |f| <= |t| && forall j :: 0 <= j < |f| ==> SameLetter(t[j], f[j])
  }

  /** `f` occurs somewhere in `t`, ignoring case: what a `...Like` search
      filter is meant to test. */
  predicate ContainsCI(t: string, f: string) {
    exists i :: 0 <= i <= |t| && PrefixCI(f, t[i..])
  }

  /** A lone `%` matches every text. */
  lemma {:induction false} LikeAnything(t: string)
    ensures Like(t, "%")
  {
    assert "%"[1..] == "";
    if |t| > 0 {
      LikeAnything(t[1..]);
    }
  }

  /** A literal followed by `%` matches exactly the texts that start with
      the literal, up to case. */
  lemma {:induction false} LikeLiteralPrefix(t: string, f: string)
    requires Literal(f)
    ensures Like(t, f + "%") <==> PrefixCI(f, t)
  {
    if |f| == 0 {
      assert f + "%" == "%";
      LikeAnything(t);
    } else {
      var p := f + "%";
      assert p[0] == f[0];
      assert p[1..] == f[1..] + "%";
      if |t| > 0 {
        LikeLiteralPrefix(t[1..], f[1..]);
      }
      if |t| > 0 && SameLetter(t[0], f[0]) && PrefixCI(f[1..], t[1..]) {
        assert forall j :: 1 <= j < |f| ==> SameLetter(t[j], f[j]) by {
          forall j | 1 <= j < |f| ensures SameLetter(t[j], f[j]) {
            assert t[1..][j - 1] == t[j] && f[1..][j - 1] == f[j];
          }
        }
      }
      if PrefixCI(f, t) {
        assert forall j :: 0 <= j < |f| - 1 ==> SameLetter(t[1..][j], f[1..][j]) by {
          forall j | 0 <= j < |f| - 1 ensures SameLetter(t[1..][j], f[1..][j]) {
            assert t[1..][j] == t[j + 1] && f[1..][j] == f[j + 1];
          }
        }
      }
    }
  }

  /** A leading `%` lets the rest of the pattern match any suffix. */
  lemma {:induction false} LikeLeadingPercent(t: string, q: string)
    ensures Like(t, "%" + q) <==> exists i :: 0 <= i <= |t| && Like(t[i..], q)
  {
    var p := "%" + q;
    assert p[0] == '%' && p[1..] == q;
    if |t| == 0 {
      assert t[0..] == t;
    } else {
      LikeLeadingPercent(t[1..], q);
      if Like(t, p) {
        if Like(t, q) {
          assert t[0..] == t;
        } else {
          var i :| 0 <= i <= |t[1..]| && Like(t[1..][i..], q);
          assert t[1..][i..] == t[i + 1..];
        }
      }
      if exists i :: 0 <= i <= |t| && Like(t[i..], q) {
        var i :| 0 <= i <= |t| && Like(t[i..], q);
        if i == 0 {
          assert t[0..] == t;
        } else {
          assert t[1..][i - 1..] == t[i..];
        }
      }
    }
  }

  /** The search pattern `%f%` for a wildcard-free filter `f` matches
      exactly the texts that contain `f`, ignoring case. */
  lemma SearchPatternMeaning(t: string, f: string)
    requires Literal(f)
    ensures Like(t, "%" + f + "%") <==> ContainsCI(t, f)
  {
    assert "%" + f + "%" == "%" + (f + "%");
    LikeLeadingPercent(t, f + "%");
    forall i | 0 <= i <= |t|
      ensures Like(t[i..], f + "%") <==> PrefixCI(f, t[i..])
    {
      LikeLiteralPrefix(t[i..], f);
    }
  }
}
