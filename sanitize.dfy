/** The two text repairs app.py applies to an embedded script definition
    after entity-decoding it: re-escaping every '&' that does not already
    begin one of the five XML entities, then deleting NUL characters. */
module Sanitize {

  /** The lookahead of the pattern `&(?!amp;|lt;|gt;|quot;|apos;)`: `t`, the
      text right after an '&', begins one of the five XML entity bodies. */
  predicate StartsEntity(t: string) {
    "amp;" <= t || "lt;" <= t || "gt;" <= t || "quot;" <= t || "apos;" <= t
  }

  /** The '&' at position `k` is one the pattern matches. */
  predicate IsBare(s: string, k: nat)
    requires k < |s|
  {
    s[k] == '&' && !StartsEntity(s[k + 1..])
  }

  /** Every '&' of `s` begins an XML entity. */
  predicate Guarded(s: string) {
    forall k :: 0 <= k < |s| && s[k] == '&' ==> StartsEntity(s[k + 1..])
  }

  /** `re.sub(r'&(?!amp;|lt;|gt;|quot;|apos;)', '&amp;', s)`. Each bare '&'
      grows by the four characters "amp;"; nothing else changes. */
  function ReEscape(s: string): (r: string)
    ensures |s| <= |r| <= 5 * |s|
  {
    if s == [] then []
    else if IsBare(s, 0) then "&amp;" + ReEscape(s[1..])
    else [s[0]] + ReEscape(s[1..])
  }

  /** What the substitution makes of position `k`, judged on the whole
      input (the lookahead reads the original text, not the output). */
  function Image(s: string, k: nat): string
    requires k < |s|
  {
    if IsBare(s, k) then "&amp;" else [s[k]]
  }

  /** The images of positions 0 .. n-1 of `s`, in order. */
  function Images(s: string, n: nat): string
    requires n <= |s|
  {
    if n == 0 then [] else Images(s, n - 1) + Image(s, n - 1)
  }

  lemma {:induction false} ImagesTail(s: string, n: nat)
    requires n < |s|
    ensures Images(s, n + 1) == Image(s, 0) + Images(s[1..], n)
  {
    if n > 0 {
      ImagesTail(s, n - 1);
      assert s[n + 1..] == s[1..][n..];
      assert Image(s, n) == Image(s[1..], n - 1);
    }
  }

  /** The re-escape is position-wise: its output is the concatenation, in
      input order, of the image of every input character, where a bare '&'
      becomes "&amp;" and every other character (an '&' that already begins
      an entity included) stands for itself. */
  lemma {:induction false} ReEscapeIsImages(s: string)
    ensures ReEscape(s) == Images(s, |s|)
  {
    if s != [] {
      ReEscapeIsImages(s[1..]);
      ImagesTail(s, |s| - 1);
    }
  }

  /** Prepending one character keeps every '&' guarded, provided an '&'
      prepended is itself followed by an entity. */
  lemma GuardedCons(c: char, rest: string)
    requires Guarded(rest)
    requires c == '&' ==> StartsEntity(rest)
    ensures Guarded([c] + rest)
  {
    var r := [c] + rest;
    forall k | 0 <= k < |r| && r[k] == '&'
      ensures StartsEntity(r[k + 1..])
    {
      if k > 0 {
        assert r[k + 1..] == rest[k..];
      } else {
        assert r[1..] == rest;
      }
    }
  }

  lemma GuardedAmp(rest: string)
    requires Guarded(rest)
    ensures Guarded("&amp;" + rest)
  {
    var r := "&amp;" + rest;
    forall k | 0 <= k < |r| && r[k] == '&'
      ensures StartsEntity(r[k + 1..])
    {
      if k >= 5 {
        assert r[k + 1..] == rest[k - 4..];
      } else {
        assert k == 0;
        assert r[1..] == "amp;" + rest;
      }
    }
  }

  /** A text with no '&' passes through unchanged, wherever it stands. */
  lemma {:induction false} ReEscapePlain(p: string, u: string)
    requires '&' !in p
    ensures ReEscape(p + u) == p + ReEscape(u)
  {
    if p == [] {
      assert p + u == u;
    } else {
      assert (p + u)[0] == p[0];
      assert (p + u)[1..] == p[1..] + u;
      ReEscapePlain(p[1..], u);
    }
  }

  /** The entity body that `t` begins with. */
  function EntityBody(t: string): (e: string)
    requires StartsEntity(t)
    ensures e <= t && StartsEntity(e)
    ensures '&' !in e && '\0' !in e
  {
    if "amp;" <= t then "amp;" else if "lt;" <= t then "lt;"
    else if "gt;" <= t then "gt;" else if "quot;" <= t then "quot;" else "apos;"
  }

  lemma ReEscapeKeepsEntity(t: string)
    requires StartsEntity(t)
    ensures StartsEntity(ReEscape(t))
  {
    var e := EntityBody(t);
    assert t == e + t[|e|..];
    ReEscapePlain(e, t[|e|..]);
  }

  /** After the re-escape every '&' begins one of the five entities. */
  lemma {:induction false} ReEscapeGuarded(s: string)
    ensures Guarded(ReEscape(s))
  {
    if s != [] {
      ReEscapeGuarded(s[1..]);
      if IsBare(s, 0) {
        GuardedAmp(ReEscape(s[1..]));
      } else {
        if s[0] == '&' {
          ReEscapeKeepsEntity(s[1..]);
        }
        GuardedCons(s[0], ReEscape(s[1..]));
      }
    }
  }

  /** The re-escape leaves a text unchanged exactly when every '&' in it
      already begins an entity. */
  lemma {:induction false} ReEscapeFixed(s: string)
    ensures ReEscape(s) == s <==> Guarded(s)
  {
    if Guarded(s) && s != [] {
      assert !IsBare(s, 0);
      GuardedTail(s);
      ReEscapeFixed(s[1..]);
    }
    if ReEscape(s) == s {
      ReEscapeGuarded(s);
    }
  }

  lemma ReEscapeIdempotent(s: string)
    ensures ReEscape(ReEscape(s)) == ReEscape(s)
  {
    ReEscapeGuarded(s);
    ReEscapeFixed(ReEscape(s));
  }

  /** `s.replace("\x00", "")`. */
  function RemoveNul(s: string): (r: string)
    ensures '\0' !in r
    ensures |r| <= |s|
  {
    if s == [] then []
    else (if s[0] == '\0' then [] else [s[0]]) + RemoveNul(s[1..])
  }

  /** Deleting NULs commutes with concatenation: the kept characters keep
      their relative order. */
  lemma {:induction false} RemoveNulAppend(a: string, b: string)
    ensures RemoveNul(a + b) == RemoveNul(a) + RemoveNul(b)
  {
    if a == [] {
      assert a + b == b;
    } else {
      var h := if a[0] == '\0' then [] else [a[0]];
      assert (a + b)[0] == a[0];
      assert (a + b)[1..] == a[1..] + b;
      RemoveNulAppend(a[1..], b);
      assert h + (RemoveNul(a[1..]) + RemoveNul(b)) == (h + RemoveNul(a[1..])) + RemoveNul(b);
    }
  }

  /** Every character other than NUL occurs as often after the deletion as
      before it, and NUL not at all. */
  lemma {:induction false} RemoveNulCounts(s: string)
    ensures multiset(RemoveNul(s))['\0'] == 0
    ensures forall c :: c != '\0' ==> multiset(RemoveNul(s))[c] == multiset(s)[c]
  {
    if s != [] {
      RemoveNulCounts(s[1..]);
      assert s == [s[0]] + s[1..];
    }
  }

  /** The deletion leaves a text unchanged exactly when it holds no NUL. */
  lemma {:induction false} RemoveNulFixed(s: string)
    ensures RemoveNul(s) == s <==> '\0' !in s
  {
    if s != [] && '\0' !in s {
      assert '\0' !in s[1..];
      RemoveNulFixed(s[1..]);
    }
  }

  lemma GuardedTail(s: string)
    requires Guarded(s) && s != []
    ensures Guarded(s[1..])
  {
    forall k | 0 <= k < |s[1..]| && s[1..][k] == '&'
      ensures StartsEntity(s[1..][k + 1..])
    {
      assert s[1..][k + 1..] == s[k + 2..];
    }
  }

  lemma RemoveNulKeepsEntity(t: string)
    requires StartsEntity(t)
    ensures StartsEntity(RemoveNul(t))
  {
    var e := EntityBody(t);
    assert t == e + t[|e|..];
    RemoveNulAppend(e, t[|e|..]);
    RemoveNulFixed(e);
  }

  /** Deleting NULs cannot separate an '&' from the entity after it. */
  lemma {:induction false} RemoveNulGuarded(s: string)
    requires Guarded(s)
    ensures Guarded(RemoveNul(s))
  {
    if s != [] {
      GuardedTail(s);
      RemoveNulGuarded(s[1..]);
      var tail := RemoveNul(s[1..]);
      if s[0] == '\0' {
        assert RemoveNul(s) == tail;
      } else {
        assert RemoveNul(s) == [s[0]] + tail;
        if s[0] == '&' {
          assert StartsEntity(s[1..]);
          RemoveNulKeepsEntity(s[1..]);
        }
        GuardedCons(s[0], tail);
      }
    }
  }

  /** app.py:60-61 in sequence: re-escape, then delete NULs. The result is
      free of NUL and every '&' in it begins an entity. */
  function Sanitize(s: string): (r: string)
    ensures Guarded(r) && '\0' !in r
  {
    ReEscapeGuarded(s);
    RemoveNulGuarded(ReEscape(s));
    RemoveNul(ReEscape(s))
  }

  /** Sanitizing an already sanitized text changes nothing. */
  lemma SanitizeIdempotent(s: string)
    ensures Sanitize(Sanitize(s)) == Sanitize(s)
  {
    var t := Sanitize(s);
    ReEscapeFixed(t);
    RemoveNulFixed(t);
  }
}
