/** The client's cookie helpers: `getCookie` looks a cookie up in the
    browser's cookie string by splitting it the way JavaScript's
    `String.prototype.split` does, and `getAuthHeaders` turns the `access`
    cookie into an Authorization header. The cookie string is a parameter. */
module Cookies {
  import opened Common

  /** `sep` occurs in `s` starting at position `i`. */
  predicate OccursAt(s: string, sep: string, i: int) {
    0 <= i && i + |sep| <= |s| && s[i..i + |sep|] == sep
  }

  /** The first position from `from` on where `sep` occurs, or None. */
  function Find(s: string, sep: string, from: nat): (r: Option<nat>)
    requires |sep| > 0 && from <= |s|
    ensures r.Some? ==> from <= r.value && OccursAt(s, sep, r.value)
    ensures r.Some? ==> forall j :: from <= j < r.value ==> !OccursAt(s, sep, j)
    ensures r.None? ==> forall j :: from <= j ==> !OccursAt(s, sep, j)
    decreases |s| - from
  {
    if from + |sep| > |s| then None
    else if s[from..from + |sep|] == sep then Some(from)
    else Find(s, sep, from + 1)
  }

  /** `sep` occurs nowhere in `t`. */
  ghost predicate Free(t: string, sep: string) {
    forall j :: !OccursAt(t, sep, j)
  }

  /** `s.slice(start).split(sep)` for a non-empty `sep`: the pieces between
      the successive leftmost, non-overlapping occurrences of `sep`. There
      is at least one piece, and the first one starts the remaining text. */
  function SplitFrom(s: string, sep: string, start: nat): (parts: seq<string>)
    requires |sep| > 0 && start <= |s|
    ensures |parts| >= 1
    ensures parts[0] <= s[start..]
    decreases |s| - start
  {
    match Find(s, sep, start)
    case None => [s[start..]]
    case Some(i) => [s[start..i]] + SplitFrom(s, sep, i + |sep|)
  }

  /** No piece of a split contains the separator. */
  lemma {:induction false} SplitFromFree(s: string, sep: string, start: nat)
    requires |sep| > 0 && start <= |s|
    ensures forall k :: 0 <= k < |SplitFrom(s, sep, start)| ==> Free(SplitFrom(s, sep, start)[k], sep)
    decreases |s| - start
  {
    match Find(s, sep, start)
    case None =>
      PieceFree(s, sep, start, |s|);
      assert s[start..] == s[start..|s|];
    case Some(i) =>
      PieceFree(s, sep, start, i);
      SplitFromFree(s, sep, i + |sep|);
      var rest := SplitFrom(s, sep, i + |sep|);
      var parts := SplitFrom(s, sep, start);
      assert parts == [s[start..i]] + rest;
      forall k | 0 <= k < |parts|
        ensures Free(parts[k], sep)
      {
        if k > 0 {
          assert parts[k] == rest[k - 1];
        }
      }
  }

  /** A stretch of `s` holding no occurrence that starts before `end` and
      fits in the stretch is free of `sep`. */
  lemma PieceFree(s: string, sep: string, start: nat, end: nat)
    requires |sep| > 0 && start <= end <= |s|
    requires forall j :: start <= j < end ==> !OccursAt(s, sep, j)
    ensures Free(s[start..end], sep)
  {
    var t := s[start..end];
    forall j | 0 <= j && j + |sep| <= |t|
      ensures !OccursAt(t, sep, j)
    {
      var inT, inS := t[j..j + |sep|], s[start + j..start + j + |sep|];
      forall m | 0 <= m < |sep|
        ensures inT[m] == inS[m]
      {
        assert inT[m] == t[j + m];
      }
      assert inT == inS;
      assert !OccursAt(s, sep, start + j);
    }
  }

  /** `s.split(sep)`: at least one piece, none containing the separator
      (and `JoinSplit` gives the string back from them). */
  function Split(s: string, sep: string): (parts: seq<string>)
    requires |sep| > 0
    ensures |parts| >= 1
    ensures forall k :: 0 <= k < |parts| ==> Free(parts[k], sep)
  {
    SplitFromFree(s, sep, 0);
    SplitFrom(s, sep, 0)
  }

  /** `parts.join(sep)`. */
  function Join(parts: seq<string>, sep: string): string
    requires |parts| >= 1
  {
    if |parts| == 1 then parts[0] else parts[0] + sep + Join(parts[1..], sep)
  }

  /** Splitting loses nothing: joining the pieces with the separator gives
      the string back. */
  lemma {:induction false} JoinSplitFrom(s: string, sep: string, start: nat)
    requires |sep| > 0 && start <= |s|
    ensures Join(SplitFrom(s, sep, start), sep) == s[start..]
    decreases |s| - start
  {
    match Find(s, sep, start)
    case None =>
    case Some(i) =>
      JoinSplitFrom(s, sep, i + |sep|);
      var parts := SplitFrom(s, sep, start);
      assert parts[1..] == SplitFrom(s, sep, i + |sep|);
      assert s[start..] == s[start..i] + sep + s[i + |sep|..];
  }

  lemma JoinSplit(s: string, sep: string)
    requires |sep| > 0
    ensures Join(Split(s, sep), sep) == s
  {
    JoinSplitFrom(s, sep, 0);
  }

  /** `piece.split(';').shift()`: the text before the first ';' (all of it
      when there is none). */
  function UpToSemicolon(s: string): (r: string)
    ensures r <= s && ';' !in r
    ensures |r| < |s| ==> s[|r|] == ';'
  {
    if s == [] || s[0] == ';' then [] else [s[0]] + UpToSemicolon(s[1..])
  }

  /** The separator `getCookie` splits on. */
  function Pattern(name: string): string {
    "; " + name + "="
  }

  /** `getCookie(name)` over the cookie string `cookie`: a value found is
      free of ';' and is the start of the text right after an occurrence of
      `; name=` in "; " + cookie. */
  function GetCookie(cookie: string, name: string): (r: Option<string>)
    ensures r.Some? ==> ';' !in r.value
    ensures r.Some? ==> exists i ::
      OccursAt("; " + cookie, Pattern(name), i) && r.value <= ("; " + cookie)[i + |Pattern(name)|..]
  {
    var s, sep := "; " + cookie, Pattern(name);
    var parts := Split(s, sep);
    if |parts| == 2 then
      var i := Find(s, sep, 0).value;
      assert parts[1] == SplitFrom(s, sep, i + |sep|)[0];
      Some(UpToSemicolon(parts[1]))
    else None
  }

  /** When the pattern occurs once in "; " + cookie, the value is the text
      after it up to the next ';'. */
  lemma GetCookieOnce(cookie: string, name: string, i: nat)
    requires OccursAt("; " + cookie, Pattern(name), i)
    requires forall j :: 0 <= j < i ==> !OccursAt("; " + cookie, Pattern(name), j)
    requires forall j :: i + |Pattern(name)| <= j ==> !OccursAt("; " + cookie, Pattern(name), j)
    ensures GetCookie(cookie, name) == Some(UpToSemicolon(("; " + cookie)[i + |Pattern(name)|..]))
  {
    var s, sep := "; " + cookie, Pattern(name);
    assert Find(s, sep, 0) == Some(i);
    var rest := i + |sep|;
    assert Find(s, sep, rest) == None;
    assert SplitFrom(s, sep, 0) == [s[..i]] + [s[rest..]];
  }

  /** Without the pattern there is no cookie of that name. */
  lemma GetCookieAbsent(cookie: string, name: string)
    requires forall j :: !OccursAt("; " + cookie, Pattern(name), j)
    ensures GetCookie(cookie, name) == None
  {
    assert Find("; " + cookie, Pattern(name), 0) == None;
  }

  /** A second, non-overlapping occurrence of the pattern makes the lookup fail. */
  lemma GetCookieRepeated(cookie: string, name: string, i: nat, k: nat)
    requires OccursAt("; " + cookie, Pattern(name), i)
    requires forall j :: 0 <= j < i ==> !OccursAt("; " + cookie, Pattern(name), j)
    requires i + |Pattern(name)| <= k && OccursAt("; " + cookie, Pattern(name), k)
    ensures GetCookie(cookie, name) == None
  {
    var s, sep := "; " + cookie, Pattern(name);
    assert Find(s, sep, 0) == Some(i);
    var rest := i + |sep|;
    var second := Find(s, sep, rest);
    assert second.Some?;
    assert |SplitFrom(s, sep, rest)| >= 2;
    assert |SplitFrom(s, sep, 0)| >= 3;
  }

  /** The first cookie matches thanks to the prepended "; ", and its value
      stops at the next ';'. */
  lemma FirstCookieMatches()
    ensures GetCookie("access=t;b=c", "access") == Some("t")
  {
    var s := "; " + "access=t;b=c";
    var sep := Pattern("access");
    assert s[0..|sep|] == sep;
    GetCookieOnce("access=t;b=c", "access", 0);
    assert s[|sep|..] == "t;b=c";
    assert UpToSemicolon(";b=c") == [];
    assert UpToSemicolon("t;b=c") == "t";
  }

  /** A cookie whose name only ends in the wanted name does not match. */
  lemma SuffixNameDoesNotMatch()
    ensures GetCookie("xaccess=1", "access") == None
  {
    var s := "; " + "xaccess=1";
    var sep := Pattern("access");
    forall j
      ensures !OccursAt(s, sep, j)
    {
      if j < 0 || j + |sep| > |s| {
      } else if j == 0 {
        assert s[j..j + |sep|][2] != sep[2];
      } else {
        assert s[j..j + |sep|][0] != sep[0];
      }
    }
    GetCookieAbsent("xaccess=1", "access");
  }

  /** The answer of `getAuthHeaders`: the Authorization header, or the
      error it throws. */
  datatype AuthHeaders = Headers(authorization: string) | NoToken(error: string)

  /** `getAuthHeaders`: a missing or empty `access` cookie throws;
      otherwise the header is "Bearer " followed by the token. */
  function GetAuthHeaders(cookie: string): (r: AuthHeaders)
    ensures r.NoToken? <==> GetCookie(cookie, "access") == None || GetCookie(cookie, "access") == Some("")
    ensures r.NoToken? ==> r.error == "No access token found"
    ensures r.Headers? ==> r.authorization == "Bearer " + GetCookie(cookie, "access").value
  {
    var token := GetCookie(cookie, "access");
    if token.None? || token.value == "" then NoToken("No access token found")
    else Headers("Bearer " + token.value)
  }
}
