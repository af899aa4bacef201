/**
 * The text order of `created_at` values. The app stores
 * `new Date().toISOString()`, a fixed-width `YYYY-MM-DDTHH:mm:ss.sssZ`
 * text, so `ORDER BY created_at DESC` is newest first exactly when the
 * engine's text order on such values is chronological order.
 */
module Timestamps {

  import opened HabitStore

  function Pow10(w: nat): (p: nat)
    ensures p >= 1
  {
    if w == 0 then 1 else 10 * Pow10(w - 1)
  }

  function DigitChar(d: nat): (c: char)
    requires d < 10
  {
    ('0' as int + d) as char
  }

  /** `n` written with exactly `w` decimal digits, zero-padded on the left. */
  function Fixed(n: nat, w: nat): (s: string)
    requires n < Pow10(w)
    ensures |s| == w
  {
    if w == 0 then [] else Fixed(n / 10, w - 1) + [DigitChar(n % 10)]
  }

  lemma {:induction false} TextLeSingle(c: char, d: char, x: string, y: string)
    ensures TextLe([c] + x, [d] + y) <==> c < d || (c == d && TextLe(x, y))
  {
    assert ([c] + x)[1..] == x && ([d] + y)[1..] == y;
  }

  lemma {:induction false} FixedLe(n: nat, k: nat, w: nat, x: string, y: string)
    requires n < Pow10(w) && k < Pow10(w)
    ensures TextLe(Fixed(n, w) + x, Fixed(k, w) + y) <==> n < k || (n == k && TextLe(x, y))
    decreases w
  {
    if w == 0 {
      assert Fixed(n, w) + x == x && Fixed(k, w) + y == y;
    } else {
      var dn, dk := DigitChar(n % 10), DigitChar(k % 10);
      assert Fixed(n, w) + x == Fixed(n / 10, w - 1) + ([dn] + x);
      assert Fixed(k, w) + y == Fixed(k / 10, w - 1) + ([dk] + y);
      FixedLe(n / 10, k / 10, w - 1, [dn] + x, [dk] + y);
      TextLeSingle(dn, dk, x, y);
    }
  }

  /** Fields written at fixed widths, each followed by its separator. */
  function Render(fields: seq<nat>, widths: seq<nat>, seps: string): (s: string)
    requires |fields| == |widths| == |seps|
    requires forall i :: 0 <= i < |fields| ==> fields[i] < Pow10(widths[i])
  {
    if |fields| == 0 then []
    else Fixed(fields[0], widths[0]) + ([seps[0]] + Render(fields[1..], widths[1..], seps[1..]))
  }

  /** Lexicographic order on field lists of equal length. */
  predicate LexLe(a: seq<nat>, b: seq<nat>)
    requires |a| == |b|
  {
    |a| == 0 || a[0] < b[0] || (a[0] == b[0] && LexLe(a[1..], b[1..]))
  }

  lemma {:induction false} RenderLe(f: seq<nat>, g: seq<nat>, widths: seq<nat>, seps: string)
    requires |f| == |g| == |widths| == |seps|
    requires forall i :: 0 <= i < |f| ==> f[i] < Pow10(widths[i]) && g[i] < Pow10(widths[i])
    ensures TextLe(Render(f, widths, seps), Render(g, widths, seps)) <==> LexLe(f, g)
    decreases |f|
  {
    if |f| > 0 {
      var x, y := Render(f[1..], widths[1..], seps[1..]), Render(g[1..], widths[1..], seps[1..]);
      FixedLe(f[0], g[0], widths[0], [seps[0]] + x, [seps[0]] + y);
      assert ([seps[0]] + x)[1..] == x && ([seps[0]] + y)[1..] == y;
      RenderLe(f[1..], g[1..], widths[1..], seps[1..]);
    }
  }

  /** A UTC instant as its calendar and clock fields. */
  datatype Instant = Instant(year: nat, month: nat, day: nat, hour: nat, minute: nat, second: nat, millis: nat)

  /** The fields, most significant first: chronological order is their lexicographic order. */
  function Fields(t: Instant): seq<nat>
  {
    [t.year, t.month, t.day, t.hour, t.minute, t.second, t.millis]
  }

  const IsoWidths: seq<nat> := [4, 2, 2, 2, 2, 2, 3]
  const IsoSeparators: string := "--T::.Z"

  /** The fields fit their digit widths (years 0 to 9999, as toISOString writes them). */
  predicate Writable(t: Instant)
  {
    t.year < 10000 && t.month < 100 && t.day < 100 && t.hour < 100
    && t.minute < 100 && t.second < 100 && t.millis < 1000
  }

  /** `toISOString()`: `YYYY-MM-DDTHH:mm:ss.sssZ`. */
  function IsoText(t: Instant): (s: string)
    requires Writable(t)
  {
    Render(Fields(t), IsoWidths, IsoSeparators)
  }

  /** One instant is no later than another. */
  predicate NoLater(a: Instant, b: Instant)
  {
    LexLe(Fields(a), Fields(b))
  }

  /** The engine's text order on `toISOString()` values is chronological order. */
  lemma IsoTextOrderIsChronological(a: Instant, b: Instant)
    requires Writable(a) && Writable(b)
    ensures TextLe(IsoText(a), IsoText(b)) <==> NoLater(a, b)
  {
    RenderLe(Fields(a), Fields(b), IsoWidths, IsoSeparators);
  }

  /** Under `ORDER BY created_at DESC`, rows stamped by toISOString come newest first. */
  lemma NewestFirstIsLatestFirst(x: Habit, y: Habit, tx: Instant, ty: Instant)
    requires Writable(tx) && Writable(ty)
    requires x.createdAt == IsoText(tx) && y.createdAt == IsoText(ty)
    ensures Precedes(NewestFirst, x, y) <==> NoLater(ty, tx)
  {
    IsoTextOrderIsChronological(ty, tx);
  }
}
