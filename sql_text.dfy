/**
 * The two SQL text fragments lib/db.ts builds with `map(...).join(", ")`:
 * the `field = ?` SET clause of an UPDATE and the `?, ?, ?` list of an
 * `IN (...)`. `Split` is the reading direction: it cuts a string at every
 * ", ", and the lemmas below show that it recovers the joined parts.
 */
module SqlText {

  /** The separator JavaScript's `join(", ")` puts between parts. */
  const Separator: string := ", "

  /** `parts.join(", ")`. */
  function Join(parts: seq<string>): string
  {
    if |parts| == 0 then ""
    else if |parts| == 1 then parts[0]
    else parts[0] + Separator + Join(parts[1..])
  }

  /** Cuts `s` at every occurrence of ", " (like `s.split(", ")`). */
  function Split(s: string): (r: seq<string>)
    ensures |r| > 0
    decreases |s|
  {
    if |s| == 0 then [""]
    else if |s| >= 2 && s[0] == ',' && s[1] == ' ' then [""] + Split(s[2..])
    else
      var rest := Split(s[1..]);
      [[s[0]] + rest[0]] + rest[1..]
  }

  /** The number of occurrences of `c` in `s`. */
  function CountChar(c: char, s: string): nat
  {
    if |s| == 0 then 0
    else (if s[0] == c then 1 else 0) + CountChar(c, s[1..])
  }

  lemma {:induction false} CountCharAppend(c: char, a: string, b: string)
    ensures CountChar(c, a + b) == CountChar(c, a) + CountChar(c, b)
  {
    if |a| > 0 {
      assert (a + b)[1..] == a[1..] + b;
      CountCharAppend(c, a[1..], b);
    } else {
      assert a + b == b;
    }
  }

  lemma {:induction false} CountCharAbsent(c: char, s: string)
    requires c !in s
    ensures CountChar(c, s) == 0
  {
    if |s| > 0 {
      CountCharAbsent(c, s[1..]);
    }
  }

  /** A character missing from every part and from the separator is missing from the join. */
  lemma {:induction false} JoinAbsent(c: char, parts: seq<string>)
    requires c != ',' && c != ' '
    requires forall i :: 0 <= i < |parts| ==> c !in parts[i]
    ensures c !in Join(parts)
  {
    if |parts| > 1 {
      JoinAbsent(c, parts[1..]);
    }
  }

  /** A part without a comma is read back whole, followed by what comes after it. */
  lemma {:induction false} SplitPrefix(x: string, rest: string)
    requires ',' !in x
    ensures Split(x + rest) == [x + Split(rest)[0]] + Split(rest)[1..]
    decreases |x|
  {
    if |x| > 0 {
      assert (x + rest)[0] == x[0];
      assert (x + rest)[1..] == x[1..] + rest;
      SplitPrefix(x[1..], rest);
      assert [x[0]] + (x[1..] + Split(rest)[0]) == x + Split(rest)[0];
    } else {
      assert x + rest == rest;
      assert x + Split(rest)[0] == Split(rest)[0];
      assert Split(rest) == [Split(rest)[0]] + Split(rest)[1..];
    }
  }

  /** Splitting a joined list at ", " gives the list back, when no part holds a comma. */
  lemma {:induction false} SplitJoin(parts: seq<string>)
    requires |parts| > 0
    requires forall i :: 0 <= i < |parts| ==> ',' !in parts[i]
    ensures Split(Join(parts)) == parts
  {
    if |parts| == 1 {
      SplitPrefix(parts[0], "");
      assert parts[0] + "" == parts[0];
    } else {
      var tail := Join(parts[1..]);
      SplitJoin(parts[1..]);
      assert parts[0] + Separator + tail == parts[0] + (Separator + tail);
      SplitPrefix(parts[0], Separator + tail);
      assert (Separator + tail)[0] == ',' && (Separator + tail)[1] == ' ';
      assert (Separator + tail)[2..] == tail;
      assert Split(Separator + tail) == [""] + parts[1..];
      assert parts[0] + "" == parts[0];
      assert parts == [parts[0]] + parts[1..];
    }
  }

  /** When every part holds `c` exactly once and the separator never does, the join holds it once per part. */
  lemma {:induction false} CountCharJoin(c: char, parts: seq<string>)
    requires c != ',' && c != ' '
    requires forall i :: 0 <= i < |parts| ==> CountChar(c, parts[i]) == 1
    ensures CountChar(c, Join(parts)) == |parts|
  {
    if |parts| > 1 {
      CountCharJoin(c, parts[1..]);
      CountCharAppend(c, parts[0] + Separator, Join(parts[1..]));
      CountCharAppend(c, parts[0], Separator);
      assert Separator[1..][1..] == [];
      assert CountChar(c, Separator) == CountChar(c, Separator[1..]) == CountChar(c, Separator[1..][1..]) == 0;
    }
  }
}
