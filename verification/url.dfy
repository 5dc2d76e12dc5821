/** Normalisation of the configured base URL and construction of the one
    URL the tester ever requests. */
module Url {

  /** The fixed path appended to the base URL for every request. */
  const EndpointPath: string := "/api/jokes/whatever"

  /** Every character of `s` is a '/'. */
  predicate AllSlashes(s: string) {
    forall i :: 0 <= i < |s| ==> s[i] == '/'
  }

  /** `s` does not end in a '/'. */
  predicate NoTrailingSlash(s: string) {
    |s| == 0 || s[|s| - 1] != '/'
  }

  /** Python's `str.rstrip('/')`: removes the maximal run of trailing '/'
      characters and nothing else. */
  function StripTrailingSlashes(s: string): (r: string)
    ensures r <= s
    ensures AllSlashes(s[|r|..])
    ensures NoTrailingSlash(r)
  {
    if |s| > 0 && s[|s| - 1] == '/' then StripTrailingSlashes(s[..|s| - 1]) else s
  }

  /** The three properties above pin the result down: any prefix that only
      cuts off slashes and leaves no trailing slash is the stripped string. */
  lemma StripIsMaximal(s: string, p: string)
    requires p <= s
    requires AllSlashes(s[|p|..])
    requires NoTrailingSlash(p)
    ensures p == StripTrailingSlashes(s)
  {
  }

  /** Stripping twice is stripping once. */
  lemma StripIdempotent(s: string)
    ensures StripTrailingSlashes(StripTrailingSlashes(s)) == StripTrailingSlashes(s)
  {
    var r := StripTrailingSlashes(s);
    StripIsMaximal(r, r);
  }

  /** Extra trailing slashes on the input make no difference. */
  lemma StripIgnoresExtraSlashes(s: string, t: string)
    requires AllSlashes(t)
    ensures StripTrailingSlashes(s + t) == StripTrailingSlashes(s)
  {
    var r := StripTrailingSlashes(s);
    assert (s + t)[|r|..] == s[|r|..] + t;
    StripIsMaximal(s + t, r);
  }

  /** The URL requested for a given base: `<base>/api/jokes/whatever`. */
  function RequestUrl(base: string): string {
    base + EndpointPath
  }

  /** For a configured input URL `u`, the requested URL is the stripped input
      followed by the endpoint path, and the character before the endpoint's
      leading '/' is never another '/', so trailing slashes of the input
      cannot produce a "//api" at the join. */
  lemma RequestUrlJoinsOnce(u: string)
    ensures var b := StripTrailingSlashes(u);
            && RequestUrl(b)[..|b|] == b
            && RequestUrl(b)[|b|..] == EndpointPath
            && RequestUrl(b)[|b|] == '/'
            && (|b| == 0 || RequestUrl(b)[|b| - 1] != '/')
  {
  }
}
