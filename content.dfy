/** The page script: a rolling 32-bit hash of the page text and the change
    decision taken against the first active tracking that matches the page. */
module Content {
  import opened Js
  import opened Registry

  /** A UTF-16 code unit, what `charCodeAt` returns. */
  type CodeUnit = c: int | 0 <= c < 0x1_0000

  /** One step of the loop: `hash = ((hash << 5) - hash) + char; hash |= 0`.
      `<<` wraps its result to 32 bits before the subtraction. */
  function Step(h: Int32, c: CodeUnit): Int32
  {
    Wrap32(Wrap32(h * 32) - h + c)
  }

  /** The step is `31 * h + c` reduced to a signed 32-bit value. */
  lemma StepIsTimes31(h: Int32, c: CodeUnit)
    ensures Step(h, c) == Wrap32(31 * h + c)
  {
    var w := Wrap32(h * 32);
    assert ((w - h + c) - (31 * h + c)) % TwoTo32 == (w - h * 32) % TwoTo32 == 0;
    Wrap32Congruent(w - h + c, 31 * h + c);
  }

  /** The hash of a text: the loop's accumulator after the last code unit. */
  function HashOf(s: seq<CodeUnit>): Int32
    decreases |s|
  {
    if s == [] then 0 else Step(HashOf(s[..|s| - 1]), s[|s| - 1])
  }

  /** The unbounded polynomial sum of c[i] * 31^(n-1-i), the hash without overflow. */
  function Poly31(s: seq<CodeUnit>): int
    decreases |s|
  {
    if s == [] then 0 else 31 * Poly31(s[..|s| - 1]) + s[|s| - 1]
  }

  lemma Times31Congruent(a: int, b: int)
    requires (a - b) % TwoTo32 == 0
    ensures (31 * a - 31 * b) % TwoTo32 == 0
  {
    var q := (a - b) / TwoTo32;
    assert a - b == TwoTo32 * q;
    assert 31 * a - 31 * b == TwoTo32 * (31 * q);
  }

  /** The wrapped fold equals the polynomial hash reduced once, at the end. */
  lemma {:induction false} HashIsPolyMod32(s: seq<CodeUnit>)
    ensures HashOf(s) == Wrap32(Poly31(s))
    decreases |s|
  {
    if s != [] {
      var p, c := s[..|s| - 1], s[|s| - 1];
      var h, q := HashOf(p), Poly31(p);
      HashIsPolyMod32(p);
      assert (h - q) % TwoTo32 == 0;
      StepIsTimes31(h, c);
      Times31Congruent(h, q);
      assert (31 * h + c) - (31 * q + c) == 31 * h - 31 * q;
      Wrap32Congruent(31 * h + c, 31 * q + c);
      assert HashOf(s) == Step(h, c) && Poly31(s) == 31 * q + c;
    }
  }

  /** Hashing `s + t` continues the fold of `s` over `t`. */
  lemma {:induction false} HashAppendUnit(s: seq<CodeUnit>, c: CodeUnit)
    ensures HashOf(s + [c]) == Step(HashOf(s), c)
  {
    assert (s + [c])[..|s + [c]| - 1] == s;
  }

  /** `document.body ? document.body.innerText || '' : ''` */
  function PageText(body: Option<seq<CodeUnit>>): seq<CodeUnit>
  {
    GetOr(body, [])
  }

  /** `getPageContentHash`: the loop, returning the decimal string of the hash. */
  method PageContentHash(body: Option<seq<CodeUnit>>) returns (hash: string)
    ensures hash == DecimalString(HashOf(PageText(body)))
    ensures hash == DecimalString(Wrap32(Poly31(PageText(body))))
    ensures PageText(body) == [] ==> hash == "0"
  {
    var text := PageText(body);
    var h: Int32 := 0;
    var i := 0;
    while i < |text|
      invariant 0 <= i <= |text|
      invariant h == HashOf(text[..i])
    {
      var c := text[i];
      assert text[..i + 1] == text[..i] + [c];
      HashAppendUnit(text[..i], c);
      var sum: int := (Wrap32(h * 32) - h) + c;
      h := Wrap32(sum);
      i := i + 1;
    }
    assert text[..|text|] == text;
    HashIsPolyMod32(text);
    hash := DecimalString(h);
  }

  // ---------------------------------------------------------------------------
  // checkChange

  /** The `find` predicate of checkChange: an active record whose url matches the page. */
  predicate Matches(t: Tracking, currentUrl: string, host: string)
  {
    t.isTracking && UrlMatches(t.url, currentUrl, host)
  }

  /** The record checkChange works on. */
  function MatchedTracking(ts: seq<Tracking>, currentUrl: string, host: string): (r: Option<nat>)
    ensures r.Some? ==> r.value < |ts| && Matches(ts[r.value], currentUrl, host)
    ensures r.Some? ==> forall j | 0 <= j < r.value :: !Matches(ts[j], currentUrl, host)
    ensures r.None? ==> forall j | 0 <= j < |ts| :: !Matches(ts[j], currentUrl, host)
  {
    Find(ts, (t: Tracking) => Matches(t, currentUrl, host))
  }

  /** `lastHash && lastHash !== currentHash`: a change needs a stored baseline. */
  predicate Signals(lastHash: Option<string>, currentHash: string)
  {
    Truthy(lastHash) && lastHash.value != currentHash
  }

  /** Between two printed hashes, a change is signalled exactly when the hashes differ. */
  lemma SignalsIffHashesDiffer(stored: Int32, current: Int32)
    ensures Signals(Some(DecimalString(stored)), DecimalString(current)) <==> stored != current
  {
    if DecimalString(stored) == DecimalString(current) {
      DecimalStringInjective(stored, current);
    }
  }

  /** `checkChange`: returns the CONTENT_CHANGED message it sends, if any, and the
      registry it writes back, if any. `trackings` is the registry read from
      storage, `host` the hostname of `currentUrl`. */
  method CheckChange(trackings: seq<Tracking>, currentUrl: string, host: string,
                     body: Option<seq<CodeUnit>>)
    returns (sent: Option<Message>, written: Option<seq<Tracking>>)
    ensures MatchedTracking(trackings, currentUrl, host).None? ==> sent == None && written == None
    ensures MatchedTracking(trackings, currentUrl, host).Some? ==>
      var i := MatchedTracking(trackings, currentUrl, host).value;
      var h := DecimalString(HashOf(PageText(body)));
      && written == Some(trackings[i := trackings[i].(lastContentHash := Some(h))])
      && (sent.Some? <==> Signals(trackings[i].lastContentHash, h))
      && (sent.Some? ==> sent.value == ContentChanged(trackings[i].id, currentUrl))
      && (trackings[i].lastContentHash == None ==> sent == None)
  {
    var found := MatchedTracking(trackings, currentUrl, host);
    if found.None? {
      return None, None;
    }
    var i := found.value;
    var currentHash := PageContentHash(body);
    var lastHash := trackings[i].lastContentHash;
    sent := None;
    if Truthy(lastHash) && lastHash.value != currentHash {
      sent := Some(ContentChanged(trackings[i].id, currentUrl));
    }
    var updated := trackings[i].(lastContentHash := Some(currentHash));
    written := Some(trackings[i := updated]);
  }

  /** Storing the hash does not move the match, and the same text checked again
      against the written registry never signals. */
  lemma RecheckIsSilent(ts: seq<Tracking>, currentUrl: string, host: string, h: string)
    requires MatchedTracking(ts, currentUrl, host).Some?
    ensures
      var i := MatchedTracking(ts, currentUrl, host).value;
      var ts' := ts[i := ts[i].(lastContentHash := Some(h))];
      MatchedTracking(ts', currentUrl, host) == Some(i) && !Signals(ts'[i].lastContentHash, h)
  {
    var i := MatchedTracking(ts, currentUrl, host).value;
    var ts' := ts[i := ts[i].(lastContentHash := Some(h))];
    assert forall j | 0 <= j < |ts| :: Matches(ts'[j], currentUrl, host) == Matches(ts[j], currentUrl, host);
  }
}
