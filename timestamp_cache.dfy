/**
 * The second-granularity cache behind `computeTimeStampString`, as a value: the pair
 * (`lastTimestamp`, `timestampStr`) and one call's effect on it. The class in
 * `AccessPattern` is specified by `Lookup`; the lemmas here are what the cache
 * promises across calls.
 */
module TimestampCache {
  import opened Wrappers
  import opened JavaLang

  /** `lastTimestamp` (a second count) and `timestampStr` (null until the first format). */
  datatype Cache = Cache(lastSecond: Long, text: Option<string>)

  /** The field initialisers: `lastTimestamp = -1`, `timestampStr = null`. */
  const INITIAL: Cache := Cache(-1, None)

  /** The cache key of an instant: `now / 1000` with Java's truncating division. */
  function SecondOf(now: Long): (sec: Long)
    ensures now >= 0 ==> sec == now / 1000
  {
    JavaDiv1000(now)
  }

  /** The call finds its second already stored. */
  predicate Hit(c: Cache, now: Long) {
    SecondOf(now) == c.lastSecond
  }

  /**
   * One call of `computeTimeStampString(now)`: the new cache and the returned text.
   * `formatted` is the text formatted for `now`; it is read only on a miss.
   */
  function Lookup(c: Cache, now: Long, formatted: string): (r: (Cache, Option<string>))
    ensures r.0.lastSecond == SecondOf(now) && r.1 == r.0.text
    ensures r.1.None? ==> Hit(c, now) && c.text.None?
  {
    if Hit(c, now) then (c, c.text)
    else (Cache(SecondOf(now), Some(formatted)), Some(formatted))
  }

  /**
   * After any call the stored second is that of `now` and the call returns the stored
   * text; a hit changes nothing, a miss stores the newly formatted text.
   */
  lemma LookupResult(c: Cache, now: Long, formatted: string)
    ensures var (c', out) := Lookup(c, now, formatted);
      && c'.lastSecond == SecondOf(now)
      && out == c'.text
      && (Hit(c, now) ==> c' == c)
      && (!Hit(c, now) ==> c'.text == Some(formatted))
  {
  }

  /** A hit does not depend on the formatted text at all: nothing is formatted. */
  lemma HitFormatsNothing(c: Cache, now: Long, text1: string, text2: string)
    requires Hit(c, now)
    ensures Lookup(c, now, text1) == Lookup(c, now, text2)
  {
  }

  /**
   * Two consecutive calls in the same truncated second return the same text, and the
   * second leaves the cache as the first left it.
   */
  lemma SameSecondSameText(c: Cache, t1: Long, t2: Long, text1: string, text2: string)
    requires SecondOf(t1) == SecondOf(t2)
    ensures var (c1, out1) := Lookup(c, t1, text1);
      var (c2, out2) := Lookup(c1, t2, text2);
      c2 == c1 && out2 == out1
  {
  }

  /** A call in another second replaces the stored second and text. */
  lemma NewSecondNewText(c: Cache, t1: Long, t2: Long, text1: string, text2: string)
    requires SecondOf(t1) != SecondOf(t2)
    ensures var (c1, _) := Lookup(c, t1, text1);
      var (c2, out2) := Lookup(c1, t2, text2);
      c2 == Cache(SecondOf(t2), Some(text2)) && out2 == Some(text2)
  {
  }

  /** The truncated second of `now` is -1 exactly for `now` in [-1999, -1000]. */
  lemma SecondMinusOne(now: Long)
    ensures SecondOf(now) == -1 <==> -1999 <= now <= -1000
  {
  }

  /**
   * The initial state is a false hit: a first call returns null (the text is never
   * formatted) exactly when `now` lies in [-1999, -1000], whose truncated second is the
   * sentinel -1.
   */
  lemma FirstCallReturnsNull(now: Long, formatted: string)
    ensures Lookup(INITIAL, now, formatted).1 == None <==> -1999 <= now <= -1000
  {
    SecondMinusOne(now);
  }

  /**
   * Truncation puts -500 ms and 500 ms in the same cached second 0, although they lie
   * on either side of the epoch: after a call at 500 ms, a call at -500 ms returns
   * the text formatted for 500 ms.
   */
  lemma AcrossEpochSharesText(text500: string, textMinus500: string)
    ensures var (c1, _) := Lookup(INITIAL, 500, text500);
      Lookup(c1, -500, textMinus500).1 == Some(text500)
  {
  }

  /** Every stored text was formatted for some instant of the stored second. */
  ghost predicate TextMatches(c: Cache, render: Long -> string) {
    c.text.Some? ==> exists t: Long :: SecondOf(t) == c.lastSecond && c.text.value == render(t)
  }

  /** `TextMatches`, and the text is missing only in the initial state. */
  ghost predicate Consistent(c: Cache, render: Long -> string) {
    TextMatches(c, render) && (c.text.None? ==> c.lastSecond == -1)
  }

  /** A call that formats with `render` keeps the stored text faithful to the stored second. */
  lemma LookupKeepsTextMatching(c: Cache, now: Long, render: Long -> string)
    requires TextMatches(c, render)
    ensures TextMatches(Lookup(c, now, render(now)).0, render)
    ensures Consistent(c, render) ==> Consistent(Lookup(c, now, render(now)).0, render)
  {
    if !Hit(c, now) {
      assert SecondOf(now) == Lookup(c, now, render(now)).0.lastSecond;
    }
  }

  /** `render` gives the same text for instants of the same wall-clock (floor) second. */
  ghost predicate SecondDetermined(render: Long -> string) {
    forall t: Long, u: Long :: t / 1000 == u / 1000 ==> render(t) == render(u)
  }

  /**
   * For instants from one second after the epoch on, the cache is exact: when the text
   * depends only on the wall-clock second, the call returns the text formatted for
   * `now` itself, hit or miss.
   */
  lemma LookupExactAfterEpoch(c: Cache, now: Long, render: Long -> string)
    requires Consistent(c, render) && SecondDetermined(render)
    requires now >= 1000
    ensures Lookup(c, now, render(now)).1 == Some(render(now))
  {
    if Hit(c, now) {
      var t: Long :| SecondOf(t) == c.lastSecond && c.text.value == render(t);
      assert t >= 1000;
      assert t / 1000 == now / 1000;
    }
  }
}
