/**
 * Header names as `net/http` stores them: `http.Header.Set` and `http.Header.Get` both
 * key the header map by `textproto.CanonicalMIMEHeaderKey(name)`. A name made only of
 * token characters gets its first letter and every letter after a `-` in upper case and
 * all other letters in lower case; any other name is used as it is.
 */
module TextProto {

  /** The token characters of section 3.2.6 of RFC 7230, the bytes a header name may hold. */
  predicate IsTokenChar(c: char) {
    ('a' <= c <= 'z') || ('A' <= c <= 'Z') || ('0' <= c <= '9') || c in "!#$%&'*+-.^_`|~"
  }

  predicate IsToken(s: string) {
    forall i :: 0 <= i < |s| ==> IsTokenChar(s[i])
  }

  function ToLower(c: char): char {
    if 'A' <= c <= 'Z' then (c as int + 32) as char else c
  }

  function ToUpper(c: char): char {
    if 'a' <= c <= 'z' then (c as int - 32) as char else c
  }

  /** Two names that are the same up to ASCII letter case. */
  predicate SameIgnoringCase(a: string, b: string) {
    |a| == |b| && forall i :: 0 <= i < |a| ==> ToLower(a[i]) == ToLower(b[i])
  }

  /** The rewriting loop: `upper` says whether the next letter starts a word. */
  function Canonical(s: string, upper: bool): (r: string)
    ensures |r| == |s|
  {
    if |s| == 0 then []
    else [if upper then ToUpper(s[0]) else ToLower(s[0])] + Canonical(s[1..], s[0] == '-')
  }

  /** `textproto.CanonicalMIMEHeaderKey`. */
  function CanonicalMIMEHeaderKey(s: string): (r: string)
    ensures |r| == |s|
    ensures !IsToken(s) ==> r == s
  {
    if IsToken(s) then Canonical(s, true) else s
  }

  /**
   * The rewriting, position by position: a letter that starts the text (when `upper`) or
   * follows a `-` is upper case, every other letter lower case.
   */
  lemma {:induction false} CanonicalAt(s: string, upper: bool, i: int)
    requires 0 <= i < |s|
    ensures Canonical(s, upper)[i]
         == if (i == 0 && upper) || (i > 0 && s[i - 1] == '-') then ToUpper(s[i]) else ToLower(s[i])
  {
    if i > 0 {
      CanonicalAt(s[1..], s[0] == '-', i - 1);
      assert s[1..][i - 1] == s[i];
      if i > 1 {
        assert s[1..][i - 2] == s[i - 1];
      }
    }
  }

  /**
   * The rule of `CanonicalMIMEHeaderKey` for a token: the first letter and every letter
   * after a `-` in upper case, all other letters in lower case.
   */
  lemma CanonicalKeyAt(s: string, i: int)
    requires IsToken(s) && 0 <= i < |s|
    ensures CanonicalMIMEHeaderKey(s)[i]
         == if i == 0 || s[i - 1] == '-' then ToUpper(s[i]) else ToLower(s[i])
  {
    CanonicalAt(s, true, i);
  }

  /** Case changes keep token characters token characters, and `-` stays `-`. */
  lemma {:induction false} CanonicalKeepsTokens(s: string, upper: bool)
    requires IsToken(s)
    ensures IsToken(Canonical(s, upper))
    ensures SameIgnoringCase(s, Canonical(s, upper))
    ensures forall i :: 0 <= i < |s| ==> (Canonical(s, upper)[i] == '-' <==> s[i] == '-')
  {
    if |s| > 0 {
      var r := Canonical(s, upper);
      var rest := Canonical(s[1..], s[0] == '-');
      assert r[0] == (if upper then ToUpper(s[0]) else ToLower(s[0]));
      assert forall i :: 1 <= i < |r| ==> r[i] == rest[i - 1];
      CanonicalKeepsTokens(s[1..], s[0] == '-');
      forall i | 0 <= i < |s|
        ensures IsTokenChar(r[i]) && ToLower(r[i]) == ToLower(s[i]) && (r[i] == '-' <==> s[i] == '-')
      {
        if i == 0 {
          CaseChar(s[0], upper);
        } else {
          assert r[i] == rest[i - 1] && s[i] == s[1..][i - 1];
        }
      }
    }
  }

  /** Changing the case of one token character. */
  lemma CaseChar(c: char, upper: bool)
    requires IsTokenChar(c)
    ensures var d := if upper then ToUpper(c) else ToLower(c);
      IsTokenChar(d) && ToLower(d) == ToLower(c) && (d == '-' <==> c == '-')
  {
  }

  /** Names that differ only in letter case are stored under the same key. */
  lemma {:induction false} CanonicalIgnoresCase(a: string, b: string, upper: bool)
    requires IsToken(a) && SameIgnoringCase(a, b)
    ensures IsToken(b)
    ensures Canonical(a, upper) == Canonical(b, upper)
  {
    if |a| > 0 {
      SameCaseChar(a[0], b[0]);
      assert SameIgnoringCase(a[1..], b[1..]) by {
        assert forall i :: 0 <= i < |a| - 1 ==> a[1..][i] == a[i + 1] && b[1..][i] == b[i + 1];
      }
      CanonicalIgnoresCase(a[1..], b[1..], a[0] == '-');
      assert forall i :: 1 <= i < |b| ==> b[i] == b[1..][i - 1];
    }
  }

  /** Two characters equal up to case, the first a token character. */
  lemma SameCaseChar(x: char, y: char)
    requires IsTokenChar(x) && ToLower(x) == ToLower(y)
    ensures IsTokenChar(y) && ToUpper(x) == ToUpper(y) && (x == '-' <==> y == '-')
  {
  }

  /** `Header.Get` finds what `Header.Set` stored under any spelling of the same name. */
  lemma CanonicalKeyIgnoresCase(a: string, b: string)
    requires IsToken(a) && SameIgnoringCase(a, b)
    ensures CanonicalMIMEHeaderKey(a) == CanonicalMIMEHeaderKey(b)
  {
    CanonicalIgnoresCase(a, b, true);
  }

  /** A canonical key is its own canonical form. */
  lemma CanonicalKeyIdempotent(s: string)
    ensures CanonicalMIMEHeaderKey(CanonicalMIMEHeaderKey(s)) == CanonicalMIMEHeaderKey(s)
  {
    if IsToken(s) {
      CanonicalKeepsTokens(s, true);
      CanonicalIdempotent(s, true);
    }
  }

  lemma {:induction false} CanonicalIdempotent(s: string, upper: bool)
    requires IsToken(s)
    ensures Canonical(Canonical(s, upper), upper) == Canonical(s, upper)
  {
    if |s| > 0 {
      var r := Canonical(s, upper);
      CanonicalKeepsTokens(s, upper);
      assert r[1..] == Canonical(s[1..], s[0] == '-');
      assert r[0] == '-' <==> s[0] == '-';
      CanonicalIdempotent(s[1..], s[0] == '-');
    }
  }

  /** `Header.Set("ETag", …)` stores the ETag under "Etag". */
  lemma CanonicalETag()
    ensures CanonicalMIMEHeaderKey("ETag") == "Etag"
  {
    assert IsToken("ETag");
    assert Canonical("g", false) == "g" by { assert "g"[1..] == ""; }
    assert Canonical("ag", false) == "ag" by { assert "ag"[1..] == "g"; }
    assert Canonical("Tag", false) == "tag" by { assert "Tag"[1..] == "ag"; }
    assert Canonical("ETag", true) == "Etag" by { assert "ETag"[1..] == "Tag"; }
  }

  /** A configured header called "etag" lands on the same key as the ETag. */
  lemma CanonicalLowerETag()
    ensures CanonicalMIMEHeaderKey("etag") == "Etag"
  {
    assert IsToken("etag");
    assert Canonical("g", false) == "g" by { assert "g"[1..] == ""; }
    assert Canonical("ag", false) == "ag" by { assert "ag"[1..] == "g"; }
    assert Canonical("tag", false) == "tag" by { assert "tag"[1..] == "ag"; }
    assert Canonical("etag", true) == "Etag" by { assert "etag"[1..] == "tag"; }
  }

  /** A name with a space is not a token and is used as it is. */
  lemma CanonicalKeepsNonToken()
    ensures CanonicalMIMEHeaderKey("x id") == "x id"
  {
    assert "x id"[1] == ' ';
  }
}
