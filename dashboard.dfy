/**
 * The dashboard's pure parts: the form validators, the submit guard with the body
 * it posts, and the search filter over the listed links.
 */
module Dashboard {
  import opened Wrappers
  import opened Schema
  import opened Http

  const UrlRequired := "URL is required"
  const UrlInvalid := "Please enter a valid URL (include http:// or https://)"
  const CodeInvalid := "Custom code must be 6-8 alphanumeric characters"

  /** The form's two text fields; an untouched field holds "". */
  datatype FormData = FormData(originalUrl: string, customCode: string)

  /**
   * `validateUrl`: "" for a non-empty URL the browser's `new URL` accepts; `parses`
   * stands for that constructor not throwing.
   */
  function ValidateUrl(url: string, parses: string -> bool): (msg: string)
    ensures msg == "" <==> url != "" && parses(url)
    ensures url == "" ==> msg == UrlRequired
    ensures url != "" && !parses(url) ==> msg == UrlInvalid
  {
    if url == "" then UrlRequired
    else if parses(url) then ""
    else UrlInvalid
  }

  /** `validateCustomCode`: the field is optional, and a filled-in code must match `^[A-Za-z0-9]{6,8}$`. */
  function ValidateCustomCode(code: string): (msg: string)
    ensures msg == "" <==> code == "" || MatchesCodePattern(code)
    ensures msg != "" ==> msg == CodeInvalid
  {
    if code == "" then ""
    else if !MatchesCodePattern(code) then CodeInvalid
    else ""
  }

  /** `isFormValid`: neither validator reports an error. */
  function IsFormValid(form: FormData, parses: string -> bool): (ok: bool)
    ensures ok <==> form.originalUrl != "" && parses(form.originalUrl) &&
                    (form.customCode == "" || MatchesCodePattern(form.customCode))
  {
    ValidateUrl(form.originalUrl, parses) == "" && ValidateCustomCode(form.customCode) == ""
  }

  /** What `handleSubmit` does: show both fields' errors, or post a body to `/api/links`. */
  datatype SubmitAction = ShowErrors(urlError: string, codeError: string) | Post(body: Body)

  /**
   * `{ originalUrl, customCode: customCode || undefined }` as JSON: a key whose
   * value is `undefined` is not serialized, so an empty code leaves the key out.
   */
  function PostedBody(form: FormData): (body: Body)
    ensures OriginalUrlKey in body && body[OriginalUrlKey] == JString(form.originalUrl)
    ensures CustomCodeKey in body <==> form.customCode != ""
    ensures CustomCodeKey in body ==> body[CustomCodeKey] == JString(form.customCode) && form.customCode != ""
    ensures body.Keys <= {OriginalUrlKey, CustomCodeKey}
  {
    var required := map[OriginalUrlKey := JString(form.originalUrl)];
    if form.customCode == "" then required else required[CustomCodeKey := JString(form.customCode)]
  }

  /** The guard of `handleSubmit`: a form with any validation error is not posted. */
  function Submit(form: FormData, parses: string -> bool): (a: SubmitAction)
    ensures a.Post? <==> IsFormValid(form, parses)
    ensures a.ShowErrors? ==> a.urlError == ValidateUrl(form.originalUrl, parses) &&
                              a.codeError == ValidateCustomCode(form.customCode)
    ensures a.ShowErrors? ==> a.urlError != "" || a.codeError != ""
    ensures a.Post? ==> a.body == PostedBody(form)
  {
    var urlError := ValidateUrl(form.originalUrl, parses);
    var codeError := ValidateCustomCode(form.customCode);
    if urlError != "" || codeError != "" then ShowErrors(urlError, codeError)
    else Post(PostedBody(form))
  }

  /**
   * A posted body passes the backend's schema exactly when the backend's URI check
   * accepts the URL, and it then validates to the form's URL and, when filled in,
   * its custom code: the two code rules agree.
   */
  lemma PostedFormPassesSchema(form: FormData, parses: string -> bool, isUri: string -> bool)
    requires Submit(form, parses).Post?
    ensures var v := Validate(PostedBody(form), isUri);
      (v.Success? <==> isUri(form.originalUrl)) &&
      (v.Success? ==> v.value == CreateRequest(form.originalUrl, if form.customCode == "" then None else Some(form.customCode)))
  {
    var body := PostedBody(form);
    assert body[OriginalUrlKey].s == form.originalUrl;
  }

  /** `toLowerCase` on one character, restricted to ASCII letters. */
  function LowerChar(c: char): (l: char)
    ensures 'A' <= c <= 'Z' ==> l as int == c as int + 32
    ensures !('A' <= c <= 'Z') ==> l == c
  {
    if 'A' <= c <= 'Z' then (c as int + 32) as char else c
  }

  /** `toLowerCase` on a string, ASCII letters only. */
  function Lower(s: string): (r: string)
    ensures |r| == |s|
    ensures forall i | 0 <= i < |s| :: r[i] == LowerChar(s[i])
  {
    seq(|s|, i requires 0 <= i < |s| => LowerChar(s[i]))
  }

  /** `s.includes(sub)`, scanning from the left. */
  function Includes(s: string, sub: string): bool
    decreases |s|
  {
    if |sub| <= |s| && s[..|sub|] == sub then true
    else if |s| <= |sub| then false
    else Includes(s[1..], sub)
  }

  /** `sub` occurs in `s` starting at index `i`. */
  ghost predicate OccursAt(s: string, sub: string, i: int)
  {
    0 <= i && i + |sub| <= |s| && s[i..i + |sub|] == sub
  }

  /** The scan finds `sub` exactly when it occurs somewhere in `s`. */
  lemma {:induction false} IncludesIffOccurs(s: string, sub: string)
    ensures Includes(s, sub) <==> exists i :: OccursAt(s, sub, i)
    decreases |s|
  {
    if |sub| <= |s| && s[..|sub|] == sub {
      assert OccursAt(s, sub, 0);
    } else if |s| <= |sub| {
      assert forall i :: !OccursAt(s, sub, i);
    } else {
      IncludesIffOccurs(s[1..], sub);
      if exists i :: OccursAt(s, sub, i) {
        var i :| OccursAt(s, sub, i);
        assert i != 0 by { assert s[..|sub|] == s[0..0 + |sub|]; }
        assert s[1..][i - 1..i - 1 + |sub|] == s[i..i + |sub|];
        assert OccursAt(s[1..], sub, i - 1);
      }
      if exists j :: OccursAt(s[1..], sub, j) {
        var j :| OccursAt(s[1..], sub, j);
        assert s[1..][j..j + |sub|] == s[j + 1..j + 1 + |sub|];
        assert OccursAt(s, sub, j + 1);
      }
    }
  }

  /** The search test: the lowercased code or URL contains the lowercased term. */
  predicate Matches(link: LinkJson, term: string)
  {
    Includes(Lower(link.code), Lower(term)) || Includes(Lower(link.originalUrl), Lower(term))
  }

  /** `r` is `s` with some elements dropped and the rest in their order. */
  ghost predicate IsSubsequence(r: seq<LinkJson>, s: seq<LinkJson>)
    decreases |s|
  {
    if r == [] then true
    else if s == [] then false
    else (r[0] == s[0] && IsSubsequence(r[1..], s[1..])) || IsSubsequence(r, s[1..])
  }

  /** `links.filter(...)` with the search test. */
  function FilteredLinks(links: seq<LinkJson>, term: string): (r: seq<LinkJson>)
    ensures IsSubsequence(r, links)
    ensures forall x :: x in r <==> x in links && Matches(x, term)
    ensures forall x :: multiset(r)[x] == if Matches(x, term) then multiset(links)[x] else 0
    decreases |links|
  {
    if links == [] then []
    else
      var rest := FilteredLinks(links[1..], term);
      assert links == [links[0]] + links[1..];
      if Matches(links[0], term) then [links[0]] + rest
      else rest
  }

  /** Every string contains the empty string. */
  lemma {:induction false} IncludesEmpty(s: string)
    ensures Includes(s, "")
  {
    assert s[..0] == "";
  }

  /** An empty search term keeps every link, in order. */
  lemma {:induction false} EmptyTermKeepsAll(links: seq<LinkJson>)
    ensures FilteredLinks(links, "") == links
    decreases |links|
  {
    if links != [] {
      assert Lower("") == "";
      IncludesEmpty(Lower(links[0].code));
      EmptyTermKeepsAll(links[1..]);
    }
  }

  /** Lowercasing twice is lowercasing once. */
  lemma LowerIdempotent(s: string)
    ensures Lower(Lower(s)) == Lower(s)
  {
  }

  /** The search ignores the case of the term: typing it in capitals finds the same links. */
  lemma {:induction false} FilterIgnoresCase(links: seq<LinkJson>, term: string)
    ensures FilteredLinks(links, term) == FilteredLinks(links, Lower(term))
    decreases |links|
  {
    LowerIdempotent(term);
    if links != [] {
      FilterIgnoresCase(links[1..], term);
    }
  }
}
