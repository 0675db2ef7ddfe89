/** Masking the credentials of URLs: where userinfo ends, signed URLs, sensitive parameters. */
module Urls {
  import opened Text
  import opened Values
  import opened Spans
  import opened Scanning
  import Fragments

  /** The character class, the port grammar and the parameter names the URL rules rely on. */
  datatype Names = Names(space: char -> bool, ports: string -> bool, signing: string -> bool, sensitive: string -> bool)

  predicate EndsAuthority(c: char) { c == '/' || c == '?' || c == '#' }
  predicate StartsQuery(c: char) { c == '?' || c == '#' }
  predicate EndsParameter(c: char) { c == '&' || c == '#' }
  predicate EndsSignedParameter(c: char) { c == '&' || c == '#' || c == '?' }
  predicate IsSchemeChar(c: char) { 'a' <= c <= 'z' || 'A' <= c <= 'Z' || IsDigit(c) || c in "+.-" }

  /** `text.find(c, start, end)`: -1 if there is none. */
  function Find(text: string, c: char, start: nat, end: nat): (r: int)
    requires end <= |text|
    ensures r == -1 || (start <= r < end && text[r] == c)
    ensures forall k :: start <= k < (if r == -1 then end else r) ==> text[k] != c
    decreases end - start
  {
    if start >= end then -1 else if text[start] == c then start else Find(text, c, start + 1, end)
  }

  /** `text.rfind(c, start, end)`: -1 if there is none. */
  function RFind(text: string, c: char, start: nat, end: nat): (r: int)
    requires end <= |text|
    ensures r == -1 || (start <= r < end && text[r] == c)
    ensures forall k :: (if r == -1 then start else r + 1) <= k < end ==> text[k] != c
  {
    if start >= end then -1 else if text[end - 1] == c then end - 1 else RFind(text, c, start, end - 1)
  }

  predicate IsMarker(text: string, m: nat) {
    m + 3 <= |text| && text[m] == ':' && text[m + 1] == '/' && text[m + 2] == '/'
  }

  /** `text.find("://", position)`: -1 if there is none. */
  function FindMarker(text: string, position: nat): (r: int)
    ensures r == -1 || (position <= r && IsMarker(text, r))
    ensures forall m :: position <= m && (r == -1 || m < r) ==> !IsMarker(text, m)
    decreases |text| - position
  {
    if position >= |text| then -1 else if IsMarker(text, position) then position else FindMarker(text, position + 1)
  }

  // ---------------------------------------------------------------- userinfo

  function AuthorityEnd(text: string, start: nat): (r: nat)
    requires start <= |text|
    ensures start <= r <= |text|
    ensures forall k :: start <= k < r ==> !EndsAuthority(text[k])
    ensures r < |text| ==> EndsAuthority(text[r])
  {
    Seek(text, start, |text|, EndsAuthority)
  }

  function TokenEnd(n: Names, text: string, start: nat): (r: nat)
    requires start <= |text|
    ensures start <= r <= |text|
    ensures forall k :: start <= k < r ==> !n.space(text[k])
    ensures r < |text| ==> n.space(text[r])
  {
    Seek(text, start, |text|, n.space)
  }

  /** The colon that separates a user from a password, or a host from a port, before the first slash; -1 if none. */
  function Separator(text: string, start: nat): int
    requires start <= |text|
  {
    var slash := Find(text, '/', start, |text|);
    var closing := if StartsWith(text, '[', start) then Find(text, ']', start, AuthorityEnd(text, start)) else -1;
    Find(text, ':', if closing >= 0 then closing + 1 else start, if slash >= 0 then slash else |text|)
  }

  /** `_userinfo_end`; a search that misses gives -1. */
  function UserinfoEnd(n: Names, text: string, start: nat, tokenEnd: nat, lastAt: int, cut: bool): int
    requires start <= tokenEnd <= |text|
  {
    var netlocEnd := AuthorityEnd(text, start);
    var at := if lastAt >= start then RFind(text, '@', start, netlocEnd) else -1;
    if at >= 0 then at
    else
      var colon := Separator(text, start);
      if colon < 0 then start
      else if lastAt >= netlocEnd then
        var inToken := RFind(text, '@', netlocEnd, tokenEnd);
        if inToken >= 0 then inToken else Find(text, '@', tokenEnd, |text|)
      else if cut then |text|
      else
        var authorityEnd := Min(netlocEnd, tokenEnd);
        if colon + 1 > authorityEnd || !n.ports(text[colon + 1..authorityEnd]) then authorityEnd else start
  }

  /** What a URL may hide behind `start`: nothing, userinfo by the generic grammar, or a password some parser reads. */
  predicate HasUserinfo(text: string, start: nat)
    requires start <= |text|
  {
    '@' in text[start..AuthorityEnd(text, start)]
  }

  /** The last `@` in the part of the text from `start` to `end`. */
  predicate IsLastAt(text: string, r: int, start: nat, end: nat)
    requires end <= |text|
  {
    start <= r < end && text[r] == '@' && forall k :: r < k < end ==> text[k] != '@'
  }

  predicate NoAt(text: string, start: nat, end: nat)
    requires end <= |text|
  {
    forall k :: start <= k < end ==> text[k] != '@'
  }

  /** What `_scrub_urls` asks of `_userinfo_end` for the URL whose authority begins at `start`. */
  function UserinfoEndAt(n: Names, text: string, start: nat, cut: bool): int
    requires start <= |text|
  {
    UserinfoEnd(n, text, start, TokenEnd(n, text, start), RFind(text, '@', 0, |text|), cut)
  }

  lemma UserinfoIffAt(text: string, start: nat)
    requires start <= |text|
    ensures HasUserinfo(text, start) <==> !NoAt(text, start, AuthorityEnd(text, start))
  {
    var end := AuthorityEnd(text, start);
    if HasUserinfo(text, start) {
      var k :| 0 <= k < end - start && text[start..end][k] == '@';
      assert text[start + k] == '@';
    }
    if !NoAt(text, start, end) {
      var k :| start <= k < end && text[k] == '@';
      assert text[start..end][k - start] == '@';
    }
  }

  /** Userinfo in the sense of section 3.2.1 of RFC 3986 is covered: the end found is the last `@` of the authority. */
  lemma UserinfoIsCovered(n: Names, text: string, start: nat, cut: bool)
    requires start <= |text| && HasUserinfo(text, start)
    ensures IsLastAt(text, UserinfoEndAt(n, text, start, cut), start, AuthorityEnd(text, start))
  {
    hide HasUserinfo, Separator;
    UserinfoIffAt(text, start);
  }

  /**
   * With no `@` in the authority, a colon before the first slash makes everything up to the next `@` of the text a
   * password to some parser. All of it is covered, and no `@` of the same token stands behind the end found.
   */
  lemma PasswordIsCovered(n: Names, text: string, start: nat, cut: bool)
    requires start <= |text| && !HasUserinfo(text, start) && Separator(text, start) >= 0
    requires RFind(text, '@', 0, |text|) >= start
    ensures var r := UserinfoEndAt(n, text, start, cut);
      && start <= Find(text, '@', start, |text|) <= r < |text|
      && (IsLastAt(text, r, start, Max(TokenEnd(n, text, start), r + 1)))
  {
    hide HasUserinfo, Separator;
    UserinfoIffAt(text, start);
    var lastAt := RFind(text, '@', 0, |text|);
    assert text[lastAt] == '@' && lastAt >= AuthorityEnd(text, start);
  }

  /** With no `@` behind it, an authority hides a password exactly if what follows its colon is no port, or was cut. */
  lemma NoPasswordLeft(n: Names, text: string, start: nat, cut: bool)
    requires start <= |text| && RFind(text, '@', 0, |text|) < start
    ensures var end := Min(AuthorityEnd(text, start), TokenEnd(n, text, start));
      var colon := Separator(text, start);
      UserinfoEndAt(n, text, start, cut)
      == if colon < 0 || (!cut && colon < end && n.ports(text[colon + 1..end])) then start
         else if cut then |text| else end
  {
    hide Separator;
  }

  /** The end found lies in the text: the last search of the scan cannot miss. */
  lemma UserinfoEndIsInRange(n: Names, text: string, start: nat, cut: bool)
    requires start <= |text|
    ensures start <= UserinfoEndAt(n, text, start, cut) <= |text|
  {
    hide UserinfoEnd, HasUserinfo, Separator;
    if HasUserinfo(text, start) {
      UserinfoIsCovered(n, text, start, cut);
    } else if RFind(text, '@', 0, |text|) < start {
      NoPasswordLeft(n, text, start, cut);
    } else if Separator(text, start) >= 0 {
      PasswordIsCovered(n, text, start, cut);
    } else {
      NothingFound(n, text, start, cut);
    }
  }

  lemma NothingFound(n: Names, text: string, start: nat, cut: bool)
    requires start <= |text| && !HasUserinfo(text, start) && Separator(text, start) < 0
    ensures UserinfoEndAt(n, text, start, cut) == start
  {
    hide HasUserinfo, Separator;
    UserinfoIffAt(text, start);
  }

  // ---------------------------------------------------------------- URLs

  /** A URL of the text: where its `://` is, where its userinfo ends, and where the next whitespace is. */
  datatype Url = Url(marker: nat, after: nat, tokenEnd: nat)

  function MaskEnd(n: Names, text: string, m: nat, cut: bool): (r: nat)
    requires IsMarker(text, m)
    ensures m + 3 <= r <= |text|
  {
    UserinfoEndIsInRange(n, text, m + 3, cut);
    UserinfoEndAt(n, text, m + 3, cut)
  }

  function UrlAt(n: Names, text: string, m: nat, cut: bool): Url
    requires IsMarker(text, m)
  {
    Url(m, MaskEnd(n, text, m, cut), TokenEnd(n, text, m + 3))
  }

  /** The URLs from `position` on. */
  function UrlsFrom(n: Names, text: string, position: nat, cut: bool): (urls: seq<Url>)
    ensures forall u :: u in urls ==> u.marker + 3 <= u.after <= |text|
    decreases |text| - position
  {
    var m := FindMarker(text, position);
    if m < 0 then [] else [UrlAt(n, text, m, cut)] + UrlsFrom(n, text, m + 3, cut)
  }

  lemma FirstUrl(n: Names, text: string, position: nat, cut: bool)
    ensures var m, urls := FindMarker(text, position), UrlsFrom(n, text, position, cut);
      if m < 0 then urls == []
      else
        && urls != [] && urls[0] == UrlAt(n, text, m, cut) && urls[0].marker == m
        && urls[1..] == UrlsFrom(n, text, m + 3, cut)
  {
  }

  /** The list holds every URL of the text from `position` on, one for each `://`, and nothing else. */
  lemma {:induction false} UrlsAreTheMarkers(n: Names, text: string, position: nat, cut: bool, u: Url)
    ensures u in UrlsFrom(n, text, position, cut) <==>
            position <= u.marker && IsMarker(text, u.marker) && u == UrlAt(n, text, u.marker, cut)
    decreases |text| - position
  {
    hide UrlsFrom, MaskEnd, TokenEnd, FindMarker;
    FirstUrl(n, text, position, cut);
    var first := FindMarker(text, position);
    if first >= 0 {
      var urls := UrlsFrom(n, text, position, cut);
      assert urls == [urls[0]] + urls[1..];
      UrlsAreTheMarkers(n, text, first + 3, cut, u);
    }
  }

  function UserinfoSpans(urls: seq<Url>): seq<(nat, nat)> {
    if urls == [] then []
    else UserinfoSpans(urls[..|urls| - 1]) + [(urls[|urls| - 1].marker + 3, urls[|urls| - 1].after)]
  }

  /** Where the parameters start: behind the first `?` or `#` behind the userinfo of a URL; -1 if there is none. */
  function ParametersFrom(text: string, urls: seq<Url>): (r: int)
    requires forall u :: u in urls ==> u.after <= |text|
    ensures -1 <= r <= |text|
  {
    if urls == [] then -1
    else
      var front, last := urls[..|urls| - 1], urls[|urls| - 1];
      var r := ParametersFrom(text, front);
      if r >= 0 then r
      else
        var opener := Seek(text, last.after, |text|, StartsQuery);
        if opener < |text| then opener + 1 else -1
  }

  predicate InSpan(s: Option<(nat, nat)>, i: nat) {
    s.Some? && Inside(s.value, i)
  }

  // ---------------------------------------------------------------- parameters

  /** A parameter starts at `from` or behind a character that ends one. */
  predicate StartsParameter(text: string, from: nat, p: nat, ends: char -> bool) {
    from <= p < |text| && (p == from || ends(text[p - 1]))
  }

  /** The `=` of the parameter that starts at `p`; -1 if it has none before `end`. */
  function Equals(text: string, p: nat, end: nat, ends: char -> bool): int
    requires p <= end <= |text|
  {
    Find(text, '=', p, Seek(text, p, end, ends))
  }

  /** The end of a sensitive value: the next `&`, or the end of the text. */
  function ValueEnd(text: string, equals: nat): (r: nat)
    requires equals <= |text|
    ensures equals <= r <= |text|
  {
    var ampersand := Find(text, '&', equals, |text|);
    if ampersand >= 0 then ampersand else |text|
  }

  /** The value of the parameter at `p`, if its name is sensitive. */
  function SensitiveValue(n: Names, text: string, p: nat): (s: Option<(nat, nat)>)
    requires p <= |text|
    ensures s.Some? ==> p < s.value.0 && s.value.0 <= s.value.1 + 1 && s.value.1 <= |text|
  {
    var equals := Equals(text, p, |text|, EndsParameter);
    if equals >= 0 && n.sensitive(text[p..equals]) then Some((equals + 1, ValueEnd(text, equals))) else None
  }

  /** Where the walk goes on behind the parameter at `p`. */
  function NextIndex(n: Names, text: string, p: nat): (i: nat)
    requires p <= |text|
    ensures i > p
  {
    var s := SensitiveValue(n, text, p);
    if s.Some? then s.value.1 + 1 else Seek(text, p, |text|, EndsParameter) + 1
  }

  function ParameterSpans(n: Names, text: string, index: nat): (spans: seq<(nat, nat)>)
    ensures forall s :: s in spans ==> s.1 <= |text|
    decreases |text| - index
  {
    if index >= |text| then []
    else
      var s := SensitiveValue(n, text, index);
      (if s.Some? then [s.value] else []) + ParameterSpans(n, text, NextIndex(n, text, index))
  }

  /** The position is in the value of a sensitive parameter, whichever other values that value holds. */
  ghost predicate InParameter(n: Names, text: string, from: nat, i: nat) {
    exists p: nat :: StartsParameter(text, from, p, EndsParameter) && InValueOf(n, text, p, i)
  }

  predicate InValueOf(n: Names, text: string, p: nat, i: nat)
    requires p <= |text|
  {
    InSpan(SensitiveValue(n, text, p), i)
  }

  lemma InAnySum(a: seq<(nat, nat)>, b: seq<(nat, nat)>, i: nat)
    ensures InAny(a + b, i) <==> InAny(a, i) || InAny(b, i)
  {
    if InAny(a + b, i) {
      var k :| 0 <= k < |a + b| && Inside((a + b)[k], i);
      assert if k < |a| then Inside(a[k], i) else Inside(b[k - |a|], i);
    }
    if InAny(a, i) {
      var k :| 0 <= k < |a| && Inside(a[k], i);
      assert Inside((a + b)[k], i);
    }
    if InAny(b, i) {
      var k :| 0 <= k < |b| && Inside(b[k], i);
      assert Inside((a + b)[|a| + k], i);
    }
  }

  /** What is in the parameters from `index` on: the value of the first if it is sensitive, and the ones behind it. */
  lemma ParameterHere(n: Names, text: string, index: nat, i: nat)
    requires index < |text|
    ensures InParameter(n, text, index, i) <==>
            InSpan(SensitiveValue(n, text, index), i) || InParameter(n, text, NextIndex(n, text, index), i)
  {
    var next := NextIndex(n, text, index);
    assert StartsParameter(text, index, index, EndsParameter);
    forall p: nat | StartsParameter(text, index, p, EndsParameter) && InValueOf(n, text, p, i)
      ensures InSpan(SensitiveValue(n, text, index), i) || StartsParameter(text, next, p, EndsParameter)
    {
    }
    assert next <= |text| ==> EndsParameter(text[next - 1]);
    hide SensitiveValue, NextIndex, InSpan;
    assert forall p: nat :: StartsParameter(text, next, p, EndsParameter) ==>
      StartsParameter(text, index, p, EndsParameter);
  }

  /** The walk over the parameters masks the value of every sensitive one, and nothing else. */
  lemma {:induction false} SensitiveValuesAreMasked(n: Names, text: string, index: nat, i: nat)
    ensures InAny(ParameterSpans(n, text, index), i) <==> InParameter(n, text, index, i)
    decreases |text| - index
  {
    hide InParameter, InAny, SensitiveValue, NextIndex;
    if index >= |text| {
      NoParameter(n, text, index, i);
    } else {
      var s, next := SensitiveValue(n, text, index), NextIndex(n, text, index);
      SensitiveValuesAreMasked(n, text, next, i);
      InAnySum(if s.Some? then [s.value] else [], ParameterSpans(n, text, next), i);
      InAtMostOne(s, i);
      ParameterHere(n, text, index, i);
    }
  }

  lemma InAtMostOne(s: Option<(nat, nat)>, i: nat)
    ensures InAny(if s.Some? then [s.value] else [], i) <==> InSpan(s, i)
  {
    if s.Some? { InOne(s.value, i); }
  }

  lemma NoParameter(n: Names, text: string, index: nat, i: nat)
    requires index >= |text|
    ensures !InParameter(n, text, index, i) && !InAny([], i)
  {
  }

  lemma InOne(s: (nat, nat), i: nat)
    ensures InAny([s], i) <==> Inside(s, i)
  {
    assert Inside([s][0], i) <==> Inside(s, i);
  }

  // ---------------------------------------------------------------- signed URLs

  /** The end of one parameter of a signed URL: the first whitespace in its value, or the end of the parameter. */
  function SignedValueEnd(n: Names, text: string, equals: nat, end: nat): (r: nat)
    requires equals < end <= |text|
    ensures equals < r <= end
  {
    Seek(text, equals + 1, end, n.space)
  }

  /** `_signed_url_end` from `index` on: -1 if no parameter has shown the URL to be signed. */
  function SignedFrom(n: Names, text: string, index: nat, regionEnd: nat, signed: bool, end: int): (r: int)
    requires regionEnd <= |text|
    decreases regionEnd - index
  {
    if index >= regionEnd then if signed then end else -1
    else
      var segmentEnd := Seek(text, index, regionEnd, EndsSignedParameter);
      var equals := Find(text, '=', index, segmentEnd);
      if equals >= 0 then
        SignedFrom(n, text, segmentEnd + 1, regionEnd, signed || n.signing(text[index..equals]),
                   SignedValueEnd(n, text, equals, segmentEnd))
      else SignedFrom(n, text, segmentEnd + 1, regionEnd, signed, end)
  }

  method FindSignedEnd(n: Names, text: string, queryFrom: nat, regionEnd: nat) returns (r: int)
    requires regionEnd <= |text|
    ensures r == SignedFrom(n, text, queryFrom, regionEnd, false, -1)
  {
    var signed, end: int, index := false, -1, queryFrom;
    while index < regionEnd
      invariant SignedFrom(n, text, index, regionEnd, signed, end)
             == SignedFrom(n, text, queryFrom, regionEnd, false, -1)
      decreases regionEnd - index
    {
      var segmentEnd := Seek(text, index, regionEnd, EndsSignedParameter);
      var equals := Find(text, '=', index, segmentEnd);
      if equals >= 0 {
        signed := signed || n.signing(text[index..equals]);
        end := SignedValueEnd(n, text, equals, segmentEnd);
      }
      index := segmentEnd + 1;
    }
    return if signed then end else -1;
  }

  /** The parameter that starts at `p` shows the URL to be signed. */
  predicate Signs(n: Names, text: string, p: nat, regionEnd: nat)
    requires p <= regionEnd <= |text|
  {
    var equals := Equals(text, p, regionEnd, EndsSignedParameter);
    equals >= 0 && n.signing(text[p..equals])
  }

  predicate StartsIn(text: string, from: nat, p: nat, regionEnd: nat) {
    p < regionEnd && StartsParameter(text, from, p, EndsSignedParameter)
  }

  /** Behind the end of the parameter at `index` the next parameter starts, and none before it. */
  lemma NextParameter(text: string, index: nat, regionEnd: nat, p: nat)
    requires index < regionEnd <= |text|
    ensures var segmentEnd := Seek(text, index, regionEnd, EndsSignedParameter);
      StartsIn(text, index, p, regionEnd) <==> p == index || StartsIn(text, segmentEnd + 1, p, regionEnd)
  {
    var segmentEnd := Seek(text, index, regionEnd, EndsSignedParameter);
    if index < p <= segmentEnd && p < |text| { assert !EndsSignedParameter(text[p - 1]); }
    if p == segmentEnd + 1 && p < regionEnd { assert EndsSignedParameter(text[segmentEnd]); }
  }

  /** Some parameter from `from` on shows the URL to be signed. */
  ghost predicate Signed(n: Names, text: string, from: nat, regionEnd: nat)
    requires regionEnd <= |text|
  {
    exists p: nat :: StartsIn(text, from, p, regionEnd) && Signs(n, text, p, regionEnd)
  }

  /** The value of every parameter from `from` on ends before `r`, or with it. */
  ghost predicate ReachesAll(n: Names, text: string, from: nat, regionEnd: nat, r: int)
    requires regionEnd <= |text|
  {
    forall p: nat :: StartsIn(text, from, p, regionEnd) ==> ValueReached(n, text, p, regionEnd, r)
  }

  predicate ValueReached(n: Names, text: string, p: nat, regionEnd: nat, r: int)
    requires p <= regionEnd <= |text|
  {
    var end := Seek(text, p, regionEnd, EndsSignedParameter);
    var equals := Find(text, '=', p, end);
    equals >= 0 ==> SignedValueEnd(n, text, equals, end) <= r
  }

  lemma SignedStep(n: Names, text: string, index: nat, regionEnd: nat, r: int)
    requires index < regionEnd <= |text|
    ensures var next := Seek(text, index, regionEnd, EndsSignedParameter) + 1;
      && (Signed(n, text, index, regionEnd) <==> Signs(n, text, index, regionEnd) || Signed(n, text, next, regionEnd))
      && (ReachesAll(n, text, index, regionEnd, r) <==>
            ValueReached(n, text, index, regionEnd, r) && ReachesAll(n, text, next, regionEnd, r))
  {
    forall p: nat { NextParameter(text, index, regionEnd, p); }
    var next := Seek(text, index, regionEnd, EndsSignedParameter) + 1;
    assert StartsIn(text, index, index, regionEnd);
    assert forall p: nat :: StartsIn(text, index, p, regionEnd) <==> p == index || StartsIn(text, next, p, regionEnd);
    hide StartsIn, Signs, ValueReached;
  }

  /**
   * The parameters of a URL are read as a set: the URL is signed exactly if one of them signs it, wherever it stands,
   * and then the end that is found lies behind every one of them.
   */
  lemma {:induction false} SignedIffAParameterSigns(n: Names, text: string, index: nat, regionEnd: nat, signed: bool,
                                                    end: int)
    requires regionEnd <= |text| && -1 <= end <= regionEnd && (signed ==> end >= 0) && end <= index
    ensures var r := SignedFrom(n, text, index, regionEnd, signed, end);
      && -1 <= r <= regionEnd
      && (r >= 0 <==> signed || Signed(n, text, index, regionEnd))
      && (r >= 0 ==> end <= r && ReachesAll(n, text, index, regionEnd, r))
    decreases regionEnd - index
  {
    hide Signed, ReachesAll;
    var r := SignedFrom(n, text, index, regionEnd, signed, end);
    if index < regionEnd {
      SignedStep(n, text, index, regionEnd, r);
      var segmentEnd := Seek(text, index, regionEnd, EndsSignedParameter);
      var equals := Find(text, '=', index, segmentEnd);
      if equals >= 0 {
        SignedIffAParameterSigns(n, text, segmentEnd + 1, regionEnd, signed || n.signing(text[index..equals]),
                                 SignedValueEnd(n, text, equals, segmentEnd));
      } else {
        SignedIffAParameterSigns(n, text, segmentEnd + 1, regionEnd, signed, end);
      }
    } else {
      NoSignedParameter(n, text, index, regionEnd, r);
    }
  }

  lemma NoSignedParameter(n: Names, text: string, index: nat, regionEnd: nat, r: int)
    requires regionEnd <= |text| && index >= regionEnd
    ensures !Signed(n, text, index, regionEnd) && ReachesAll(n, text, index, regionEnd, r)
  {
  }

  function SchemeStart(text: string, i: nat): (r: nat)
    requires i <= |text|
    ensures r <= i && (forall k :: r <= k < i ==> IsSchemeChar(text[k])) && (r > 0 ==> !IsSchemeChar(text[r - 1]))
  {
    if i > 0 && IsSchemeChar(text[i - 1]) then SchemeStart(text, i - 1) else i
  }

  /** The span of a signed URL, from its scheme to the end of its last parameter and at least of its token. */
  function SignedSpan(n: Names, text: string, u: Url, regionEnd: nat): (s: Option<(nat, nat)>)
    requires u.marker <= regionEnd <= |text|
    ensures s.Some? ==> s.value.1 <= |text|
  {
    var opener := Seek(text, Min(u.after, regionEnd), regionEnd, StartsQuery);
    if opener == regionEnd then None
    else
      var end := SignedFrom(n, text, opener + 1, regionEnd, false, -1);
      SignedIffAParameterSigns(n, text, opener + 1, regionEnd, false, -1);
      if end < 0 then None else Some((SchemeStart(text, u.marker), Max(end, Min(u.tokenEnd, regionEnd))))
  }

  /** Where the URL at `m` may reach: to the next URL. */
  function RegionEnd(text: string, m: nat): (r: nat)
    requires m + 3 <= |text|
    ensures m + 3 <= r <= |text|
  {
    var next := FindMarker(text, m + 3);
    if next < 0 then |text| else next
  }

  function SignedSpans(n: Names, text: string, urls: seq<Url>): (spans: seq<(nat, nat)>)
    requires forall u :: u in urls ==> u.marker + 3 <= |text|
    ensures forall s :: s in spans ==> s.1 <= |text|
  {
    if urls == [] then []
    else
      var front, last := urls[..|urls| - 1], urls[|urls| - 1];
      var s := SignedSpan(n, text, last, RegionEnd(text, last.marker));
      SignedSpans(n, text, front) + if s.Some? then [s.value] else []
  }

  // ---------------------------------------------------------------- the rule

  ghost predicate InUserinfo(n: Names, text: string, cut: bool, i: nat) {
    exists m: nat :: IsMarker(text, m) && m + 3 <= i < MaskEnd(n, text, m, cut)
  }

  ghost predicate InSignedUrl(n: Names, text: string, cut: bool, i: nat) {
    exists m: nat :: IsMarker(text, m) && InSpan(SignedSpan(n, text, UrlAt(n, text, m, cut), RegionEnd(text, m)), i)
  }

  ghost predicate InSensitiveParameter(n: Names, text: string, cut: bool, i: nat) {
    var from := ParametersFrom(text, UrlsFrom(n, text, 0, cut));
    from >= 0 && InParameter(n, text, from, i)
  }

  lemma {:induction false} InUserinfoSpans(urls: seq<Url>, i: nat)
    ensures InAny(UserinfoSpans(urls), i) <==> exists u :: u in urls && u.marker + 3 <= i < u.after
  {
    if urls != [] {
      var front, last := urls[..|urls| - 1], urls[|urls| - 1];
      assert urls == front + [last];
      InUserinfoSpans(front, i);
      InAnySum(UserinfoSpans(front), [(last.marker + 3, last.after)], i);
      InOne((last.marker + 3, last.after), i);
    }
  }

  lemma {:induction false} InSignedSpans(n: Names, text: string, urls: seq<Url>, i: nat)
    requires forall u :: u in urls ==> u.marker + 3 <= |text|
    ensures InAny(SignedSpans(n, text, urls), i) <==>
            exists u :: u in urls && InSpan(SignedSpan(n, text, u, RegionEnd(text, u.marker)), i)
  {
    hide SignedSpan, RegionEnd;
    if urls != [] {
      var front, last := urls[..|urls| - 1], urls[|urls| - 1];
      assert urls == front + [last];
      InSignedSpans(n, text, front, i);
      var s := SignedSpan(n, text, last, RegionEnd(text, last.marker));
      var tail := if s.Some? then [s.value] else [];
      InAnySum(SignedSpans(n, text, front), tail, i);
      InAtMostOne(s, i);
    }
  }

  /** The parts of the list of spans are the userinfo, the signed URLs and the sensitive parameters of the text. */
  lemma SpansMean(n: Names, text: string, cut: bool, i: nat)
    ensures var urls := UrlsFrom(n, text, 0, cut);
      var from := ParametersFrom(text, urls);
      && (InAny(UserinfoSpans(urls), i) <==> InUserinfo(n, text, cut, i))
      && (InAny(SignedSpans(n, text, urls), i) <==> InSignedUrl(n, text, cut, i))
      && (InAny(if from >= 0 then ParameterSpans(n, text, from) else [], i) <==> InSensitiveParameter(n, text, cut, i))
  {
    hide MaskEnd, SignedSpan, RegionEnd, TokenEnd, UrlsFrom, FindMarker, ParametersFrom, ParameterSpans, InParameter;
    var urls := UrlsFrom(n, text, 0, cut);
    forall u: Url ensures u in urls <==> IsMarker(text, u.marker) && u == UrlAt(n, text, u.marker, cut) {
      UrlsAreTheMarkers(n, text, 0, cut, u);
    }
    forall m: nat | IsMarker(text, m) ensures UrlAt(n, text, m, cut) in urls {
    }
    InUserinfoSpans(urls, i);
    InSignedSpans(n, text, urls, i);
    var from := ParametersFrom(text, urls);
    if from >= 0 { SensitiveValuesAreMasked(n, text, from, i); }
  }

  /** One more URL in the list: what follows from it for the spans and the parameters. */
  lemma UrlStep(n: Names, text: string, position: nat, cut: bool, urls: seq<Url>)
    requires FindMarker(text, position) >= 0 && forall u :: u in urls ==> u.after <= |text|
    ensures var m := FindMarker(text, position);
      var u := UrlAt(n, text, m, cut);
      var opener := Seek(text, u.after, |text|, StartsQuery);
      && u.after <= |text|
      && urls + UrlsFrom(n, text, position, cut) == urls + [u] + UrlsFrom(n, text, m + 3, cut)
      && UserinfoSpans(urls + [u]) == UserinfoSpans(urls) + [(m + 3, u.after)]
      && ParametersFrom(text, urls + [u])
         == if ParametersFrom(text, urls) >= 0 then ParametersFrom(text, urls)
            else if opener < |text| then opener + 1 else -1
  {
    hide UrlsFrom, MaskEnd, TokenEnd, FindMarker;
    FirstUrl(n, text, position, cut);
    var u := UrlAt(n, text, FindMarker(text, position), cut);
    var rest := UrlsFrom(n, text, position, cut);
    assert rest == [rest[0]] + rest[1..];
    assert (urls + [u])[..|urls|] == urls;
    assert urls + ([u] + UrlsFrom(n, text, u.marker + 3, cut)) == urls + [u] + UrlsFrom(n, text, u.marker + 3, cut);
  }

  method FindUrls(n: Names, text: string, cut: bool)
      returns (spans: seq<(nat, nat)>, urls: seq<Url>, parametersFrom: int)
    ensures urls == UrlsFrom(n, text, 0, cut) && spans == UserinfoSpans(urls)
    ensures parametersFrom == ParametersFrom(text, urls)
  {
    hide UserinfoEnd, TokenEnd, FindMarker, UserinfoSpans, ParametersFrom, UrlsFrom;
    spans, urls, parametersFrom := [], [], -1;
    NoUrls(n, text, cut);
    var position, tokenEnd := 0, 0;
    var lastAt := RFind(text, '@', 0, |text|);
    var marker := FindMarker(text, 0);
    while marker >= 0
      invariant position <= |text| && marker == FindMarker(text, position)
      invariant position <= tokenEnd <= |text| && (position > 0 ==> tokenEnd == TokenEnd(n, text, position))
      invariant position == 0 ==> tokenEnd == 0
      invariant urls + UrlsFrom(n, text, position, cut) == UrlsFrom(n, text, 0, cut)
      invariant forall u :: u in urls ==> u.after <= |text|
      invariant spans == UserinfoSpans(urls) && parametersFrom == ParametersFrom(text, urls)
      decreases |text| - position
    {
      var start := marker + 3;
      if start > tokenEnd { tokenEnd := TokenEnd(n, text, start); }
      UserinfoEndIsInRange(n, text, start, cut);
      var maskEnd: nat := UserinfoEnd(n, text, start, tokenEnd, lastAt, cut);
      UrlStep(n, text, position, cut, urls);
      spans, urls := spans + [(start, maskEnd)], urls + [Url(marker, Max(start, maskEnd), tokenEnd)];
      if parametersFrom < 0 {
        var opener := Seek(text, Max(start, maskEnd), |text|, StartsQuery);
        if opener < |text| { parametersFrom := opener + 1; }
      }
      position := start;
      marker := FindMarker(text, position);
    }
    LastUrl(n, text, position, cut, urls);
  }

  lemma NoUrls(n: Names, text: string, cut: bool)
    ensures [] + UrlsFrom(n, text, 0, cut) == UrlsFrom(n, text, 0, cut)
    ensures UserinfoSpans([]) == [] && ParametersFrom(text, []) == -1
  {
  }

  lemma LastUrl(n: Names, text: string, position: nat, cut: bool, urls: seq<Url>)
    requires FindMarker(text, position) < 0
    ensures urls + UrlsFrom(n, text, position, cut) == urls
  {
  }

  method FindScheme(text: string, marker: nat) returns (schemeStart: nat)
    requires marker <= |text|
    ensures schemeStart == SchemeStart(text, marker)
  {
    schemeStart := marker;
    while schemeStart > 0 && IsSchemeChar(text[schemeStart - 1])
      invariant schemeStart <= marker && SchemeStart(text, schemeStart) == SchemeStart(text, marker)
    {
      schemeStart := schemeStart - 1;
    }
  }

  /** The span of a signed URL as the loop finds it. */
  method FindSignedSpan(n: Names, text: string, u: Url, regionEnd: nat) returns (s: Option<(nat, nat)>)
    requires u.marker <= regionEnd <= |text|
    ensures s == SignedSpan(n, text, u, regionEnd)
  {
    hide SignedFrom, ReachesAll, Signed;
    var opener := Seek(text, Min(u.after, regionEnd), regionEnd, StartsQuery);
    if opener == regionEnd { return None; }
    var signedEnd := FindSignedEnd(n, text, opener + 1, regionEnd);
    if signedEnd < 0 { return None; }
    var schemeStart := FindScheme(text, u.marker);
    SignedIffAParameterSigns(n, text, opener + 1, regionEnd, false, -1);
    return Some((schemeStart, Max(signedEnd, Min(u.tokenEnd, regionEnd))));
  }

  method FindSignedUrls(n: Names, text: string, cut: bool, urls: seq<Url>) returns (spans: seq<(nat, nat)>)
    requires urls == UrlsFrom(n, text, 0, cut)
    ensures spans == SignedSpans(n, text, urls)
  {
    hide UrlsFrom, SignedSpan, RegionEnd;
    spans := [];
    for number := 0 to |urls|
      invariant spans == SignedSpans(n, text, urls[..number])
    {
      var u := urls[number];
      assert urls[..number + 1][..number] == urls[..number];
      NextMarker(n, text, 0, cut, number);
      var regionEnd := if number + 1 < |urls| then urls[number + 1].marker else |text|;
      var s := FindSignedSpan(n, text, u, regionEnd);
      if s.Some? { spans := spans + [s.value]; }
    }
    assert urls[..|urls|] == urls;
  }

  /** The URL behind the `k`-th in the list is the next one of the text. */
  lemma {:induction false} NextMarker(n: Names, text: string, position: nat, cut: bool, k: nat)
    requires k < |UrlsFrom(n, text, position, cut)|
    ensures var urls := UrlsFrom(n, text, position, cut);
      && IsMarker(text, urls[k].marker)
      && RegionEnd(text, urls[k].marker) == if k + 1 < |urls| then urls[k + 1].marker else |text|
    decreases |text| - position
  {
    hide UrlAt, MaskEnd, UrlsFrom, FindMarker, TokenEnd;
    FirstUrl(n, text, position, cut);
    var m := FindMarker(text, position);
    FirstUrl(n, text, m + 3, cut);
    if k > 0 {
      NextMarker(n, text, m + 3, cut, k - 1);
    }
  }

  method FindParameters(n: Names, text: string, parametersFrom: int) returns (spans: seq<(nat, nat)>)
    requires parametersFrom >= -1
    ensures spans == if parametersFrom >= 0 then ParameterSpans(n, text, parametersFrom) else []
  {
    hide ParameterSpans;
    NoParameterSpans(n, text);
    spans := [];
    var index: nat := if parametersFrom >= 0 then parametersFrom else |text|;
    while index < |text|
      invariant spans + ParameterSpans(n, text, index)
             == if parametersFrom >= 0 then ParameterSpans(n, text, parametersFrom) else []
      decreases |text| - index
    {
      var segmentEnd := Seek(text, index, |text|, EndsParameter);
      var equals := Find(text, '=', index, segmentEnd);
      ParameterStep(n, text, index, spans);
      if equals >= 0 && n.sensitive(text[index..equals]) {
        segmentEnd := ValueEnd(text, equals);
        spans := spans + [(equals + 1, segmentEnd)];
      }
      index := segmentEnd + 1;
    }
    assert spans + [] == spans;
  }

  lemma NoParameterSpans(n: Names, text: string)
    ensures forall index :: index >= |text| ==> ParameterSpans(n, text, index) == []
  {
  }

  lemma ParameterStep(n: Names, text: string, index: nat, spans: seq<(nat, nat)>)
    requires index < |text|
    ensures var s, rest := SensitiveValue(n, text, index), ParameterSpans(n, text, NextIndex(n, text, index));
      spans + ParameterSpans(n, text, index) == if s.Some? then spans + [s.value] + rest else spans + rest
  {
    hide SensitiveValue, NextIndex;
    var s, rest := SensitiveValue(n, text, index), ParameterSpans(n, text, NextIndex(n, text, index));
    if s.Some? {
      assert spans + ([s.value] + rest) == spans + [s.value] + rest;
    } else {
      assert spans + ([] + rest) == spans + rest;
    }
  }

  /**
   * `_scrub_urls`: one mask for every maximal run of userinfo, signed URLs and values of sensitive parameters, every
   * other character kept in order; held fragments survive it.
   */
  method ScrubUrls(n: Names, text: string, cut: bool) returns (out: string, ghost cover: set<nat>)
    ensures out == MaskRuns(text, cover, |text|)
    ensures forall i: nat :: i in cover <==>
              InUserinfo(n, text, cut, i) || InSignedUrl(n, text, cut, i) || InSensitiveParameter(n, text, cut, i)
    ensures forall count: nat :: Fragments.Sound(text, count) ==> Fragments.Sound(out, count)
  {
    hide UrlsFrom, UserinfoSpans, SignedSpans, ParameterSpans, ParametersFrom, Cover, MaskRuns, Splice, Fragments.Sound;
    hide InUserinfo, InSignedUrl, InSensitiveParameter;
    var userinfo, urls, parametersFrom := FindUrls(n, text, cut);
    var signed := FindSignedUrls(n, text, cut, urls);
    var parameters := FindParameters(n, text, parametersFrom);
    var spans := userinfo + signed + parameters;
    cover := Cover(spans);
    AllWithin(n, text, cut, urls, userinfo, signed, parameters);
    forall i: nat ensures i in cover <==>
      InUserinfo(n, text, cut, i) || InSignedUrl(n, text, cut, i) || InSensitiveParameter(n, text, cut, i)
    {
      InCover(spans, i);
      InAnySum(userinfo + signed, parameters, i);
      InAnySum(userinfo, signed, i);
      SpansMean(n, text, cut, i);
    }
    ghost var cuts;
    out, cuts := ReplaceSpans(text, spans);
    forall count: nat | Fragments.Sound(text, count) ensures Fragments.Sound(out, count) {
      Fragments.MaskingIsSound(text, cuts, count);
    }
  }

  lemma AllWithin(n: Names, text: string, cut: bool, urls: seq<Url>, userinfo: seq<(nat, nat)>, signed: seq<(nat, nat)>,
                  parameters: seq<(nat, nat)>)
    requires urls == UrlsFrom(n, text, 0, cut)
    requires userinfo == UserinfoSpans(urls) && signed == SignedSpans(n, text, urls)
    requires parameters == [] || exists from: nat :: parameters == ParameterSpans(n, text, from)
    ensures Within(userinfo + signed + parameters, |text|)
  {
    UserinfoWithin(urls, |text|);
    var spans := userinfo + signed + parameters;
    forall k | 0 <= k < |spans| ensures spans[k].1 <= |text| {
      assert spans[k] in userinfo || spans[k] in signed || spans[k] in parameters;
    }
  }

  lemma {:induction false} UserinfoWithin(urls: seq<Url>, n: nat)
    requires forall u :: u in urls ==> u.after <= n
    ensures forall s :: s in UserinfoSpans(urls) ==> s.1 <= n
  {
    if urls != [] { UserinfoWithin(urls[..|urls| - 1], n); }
  }
}
