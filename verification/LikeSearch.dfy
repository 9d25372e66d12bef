/** The picker's search: a user's text escaped into a LIKE pattern, matched as SQLite matches. */
module LikeSearch {
  import opened Basics

  /** `str.replace` of one character by a string. */
  function Replace(s: string, c: char, put: string): string {
    if s == "" then "" else (if s[0] == c then put else [s[0]]) + Replace(s[1..], c, put)
  }

  /** The three chained replacements. */
  function Escaped(query: string): string {
    Replace(Replace(Replace(query, '\\', "\\\\"), '%', "\\%"), '_', "\\_")
  }

  /** One pass: a backslash in front of every special character. */
  function EscapeEach(query: string): string {
    if query == "" then ""
    else (if query[0] in "\\%_" then ['\\', query[0]] else [query[0]]) + EscapeEach(query[1..])
  }

  lemma {:induction false} ReplaceAppends(a: string, b: string, c: char, put: string)
    ensures Replace(a + b, c, put) == Replace(a, c, put) + Replace(b, c, put)
  {
    if a == "" {
      assert a + b == b;
    } else {
      assert (a + b)[1..] == a[1..] + b;
      ReplaceAppends(a[1..], b, c, put);
    }
  }

  /** Backslash first: the later replacements never touch an escape already made. */
  lemma {:induction false} EscapedIsOnePass(query: string)
    ensures Escaped(query) == EscapeEach(query)
  {
    if query != "" {
      var c, rest := query[0], query[1..];
      EscapedIsOnePass(rest);
      var first := Replace([c], '\\', "\\\\");
      assert query == [c] + rest;
      ReplaceAppends([c], rest, '\\', "\\\\");
      ReplaceAppends(first, Replace(rest, '\\', "\\\\"), '%', "\\%");
      ReplaceAppends(Replace(first, '%', "\\%"), Replace(Replace(rest, '\\', "\\\\"), '%', "\\%"), '_', "\\_");
      EscapedChar(c);
    }
  }

  lemma EscapedChar(c: char)
    ensures Escaped([c]) == if c in "\\%_" then ['\\', c] else [c]
  {
    ReplaceChar(c, '\\', "\\\\");
    ReplaceChar(c, '%', "\\%");
    ReplaceChar(c, '_', "\\_");
    ReplaceBackslashed('\\', '%', "\\%");
    ReplaceBackslashed('\\', '_', "\\_");
    ReplaceBackslashed('%', '_', "\\_");
  }

  lemma ReplaceChar(c: char, d: char, put: string)
    ensures Replace([c], d, put) == if c == d then put else [c]
  {
    assert Replace([c][1..], d, put) == "";
  }

  lemma ReplaceBackslashed(c: char, d: char, put: string)
    requires c != d && d != '\\'
    ensures Replace(['\\', c], d, put) == ['\\', c]
  {
    assert ['\\', c][1..] == [c];
    ReplaceChar(c, d, put);
  }

  /** `name LIKE pattern ESCAPE '\'`: ASCII case is ignored, a trailing escape character matches nothing. */
  predicate Like(pattern: string, name: string)
    decreases |pattern| + |name|
  {
    if pattern == "" then name == ""
    else if pattern[0] == '%' then Like(pattern[1..], name) || (name != "" && Like(pattern, name[1..]))
    else if pattern[0] == '_' then name != "" && Like(pattern[1..], name[1..])
    else if pattern[0] == '\\' then
      |pattern| > 1 && name != "" && LowerChar(pattern[1]) == LowerChar(name[0]) && Like(pattern[2..], name[1..])
    else name != "" && LowerChar(pattern[0]) == LowerChar(name[0]) && Like(pattern[1..], name[1..])
  }

  /** `query` occurs in `name` at `k`, ASCII case aside. */
  predicate OccursAt(query: string, name: string, k: int) {
    0 <= k && k + |query| <= |name| && forall i :: 0 <= i < |query| ==> SameLetter(query[i], name[k + i])
  }

  /** The filter `all_games` applies for a query; an empty query filters nothing. */
  predicate Found(query: string, name: string) {
    query == "" || Like("%" + Escaped(query) + "%", name)
  }

  lemma {:induction false} LikeAny(name: string)
    ensures Like("%", name)
  {
    if name == "" {
      assert "%"[1..] == "";
    } else {
      LikeAny(name[1..]);
    }
  }

  /** A pattern that begins with an escaped character wants that character first. */
  lemma LikeFirst(c: char, tail: string, name: string)
    ensures Like((if c in "\\%_" then ['\\', c] else [c]) + tail, name)
            <==> name != "" && SameLetter(c, name[0]) && Like(tail, name[1..])
  {
    if name != "" {
      LowerCharExact(c, name[0]);
    }
    hide LowerChar, SameLetter;
    if c in "\\%_" {
      assert (['\\', c] + tail)[2..] == tail;
    } else {
      assert ([c] + tail)[1..] == tail;
    }
  }

  /** An escaped query at the front of a pattern matches exactly itself. */
  lemma {:induction false} LikeLiteral(query: string, rest: string, name: string)
    ensures Like(EscapeEach(query) + rest, name) <==> OccursAt(query, name, 0) && Like(rest, name[|query|..])
  {
    hide Like, SameLetter;
    if query == "" {
      assert EscapeEach(query) + rest == rest && name[0..] == name;
    } else {
      var c, tail := query[0], EscapeEach(query[1..]) + rest;
      assert EscapeEach(query) + rest == (if c in "\\%_" then ['\\', c] else [c]) + tail;
      LikeFirst(c, tail, name);
      if name != "" {
        LikeLiteral(query[1..], rest, name[1..]);
        OccursStep(query, name);
        assert |query| <= |name| ==> name[1..][|query| - 1..] == name[|query|..];
      }
    }
  }

  lemma OccursStep(query: string, name: string)
    requires query != "" && name != ""
    ensures OccursAt(query, name, 0) <==> SameLetter(query[0], name[0]) && OccursAt(query[1..], name[1..], 0)
  {
    hide SameLetter;
    if SameLetter(query[0], name[0]) && OccursAt(query[1..], name[1..], 0) {
      forall i | 0 <= i < |query|
        ensures SameLetter(query[i], name[i])
      {
        if i > 0 {
          assert query[i] == query[1..][i - 1] && name[i] == name[1..][i - 1];
        }
      }
    }
    if OccursAt(query, name, 0) {
      forall i | 0 <= i < |query| - 1
        ensures SameLetter(query[1..][i], name[1..][i])
      {
        assert SameLetter(query[i + 1], name[0 + (i + 1)]);
      }
    }
  }

  lemma {:induction false} LikeSomewhere(query: string, name: string)
    ensures Like("%" + EscapeEach(query) + "%", name) <==> exists k :: OccursAt(query, name, k)
    decreases |name|
  {
    var p := "%" + EscapeEach(query) + "%";
    assert p[1..] == EscapeEach(query) + "%";
    LikeLiteral(query, "%", name);
    if OccursAt(query, name, 0) {
      LikeAny(name[|query|..]);
    }
    if name != "" {
      LikeSomewhere(query, name[1..]);
      if k :| OccursAt(query, name[1..], k) {
        assert OccursAt(query, name, k + 1);
      }
      if k :| OccursAt(query, name, k) && k > 0 {
        assert OccursAt(query, name[1..], k - 1);
      }
    }
  }

  /** Why the escaping is there: a raw wildcard finds names the query does not occur in. */
  lemma RawWildcards(name: string)
    requires name != "" && '_' !in name && '%' !in name
    ensures Like("%_%", name) && !Like("_", "") && !exists k :: OccursAt("_", name, k)
    ensures Like("%%%", name) && !exists k :: OccursAt("%", name, k)
  {
    LikeAny(name[1..]);
    LikeAny(name);
    assert "%_%"[1..] == "_%" && "_%"[1..] == "%";
    assert "%%%"[1..] == "%%" && "%%"[1..] == "%";
    assert Like("_%", name) && Like("%%", name);
    forall k
      ensures !OccursAt("_", name, k) && !OccursAt("%", name, k)
    {
      if 0 <= k < |name| {
        assert name[k + 0] in name;
        assert !SameLetter("_"[0], name[k + 0]) && !SameLetter("%"[0], name[k + 0]);
      }
    }
  }

  /** For every query and name: the pattern matches exactly the names the query occurs in, ASCII case aside. */
  lemma SearchExact(query: string, name: string)
    ensures Found(query, name) <==> exists k :: OccursAt(query, name, k)
  {
    if query == "" {
      assert OccursAt(query, name, 0);
    } else {
      EscapedIsOnePass(query);
      LikeSomewhere(query, name);
    }
  }
}
