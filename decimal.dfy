/** Record file names: Long.toString for writing "<id>.json", and the
    `Long.parseLong(name.replace(".json", ""))` scan that recovers the id
    counter at start-up. */
module Decimal {
  import opened Records

  const LongMin: int := -0x8000_0000_0000_0000
  const LongMax: int := 0x7FFF_FFFF_FFFF_FFFF

  predicate InLong(i: int) { LongMin <= i <= LongMax }

  predicate IsDigit(c: char) { '0' <= c <= '9' }

  predicate AllDigits(s: string) { forall i :: 0 <= i < |s| ==> IsDigit(s[i]) }

  function DigitChar(d: nat): (c: char)
    requires d < 10
    ensures IsDigit(c)
  {
    (('0' as int) + d) as char
  }

  function DigitValue(c: char): (d: nat)
    requires IsDigit(c)
    ensures d < 10
  {
    (c as int) - ('0' as int)
  }

  /** The decimal digits of n, most significant first, without leading zeros. */
  function Digits(n: nat): (s: string)
    ensures |s| > 0 && AllDigits(s)
    decreases n
  {
    if n < 10 then [DigitChar(n)] else Digits(n / 10) + [DigitChar(n % 10)]
  }

  /** The value of a string of decimal digits. */
  function DigitsValue(s: string): nat
    requires AllDigits(s)
  {
    if s == [] then 0 else DigitsValue(s[..|s| - 1]) * 10 + DigitValue(s[|s| - 1])
  }

  /** Long.toString. */
  function ShowLong(i: int): (r: string)
    ensures |r| > 0 && (r[0] == '-' <==> i < 0)
    ensures AllDigits(if i < 0 then r[1..] else r)
  {
    if i < 0 then "-" + Digits(-i) else Digits(i)
  }

  /** Long.parseLong: an optional sign, at least one digit, and a value within the
      64-bit range; anything else throws NumberFormatException (None). */
  function ParseLong(s: string): (r: Option<int>)
    ensures r.Some? ==> InLong(r.value)
  {
    var signed := |s| > 0 && (s[0] == '-' || s[0] == '+');
    var body := if signed then s[1..] else s;
    if body == [] || !AllDigits(body) then None
    else
      var v: int := if signed && s[0] == '-' then 0 - DigitsValue(body) else DigitsValue(body);
      if InLong(v) then Some(v) else None
  }

  /** String.replace(pat, ""): every occurrence of pat, scanning left to right
      without overlap, is removed. */
  function RemoveAll(s: string, pat: string): (r: string)
    requires |pat| > 0
    ensures |r| <= |s|
    ensures (forall i :: 0 <= i < |s| ==> s[i] != pat[0]) ==> r == s
    decreases |s|
  {
    if |s| < |pat| then s
    else if s[..|pat|] == pat then RemoveAll(s[|pat|..], pat)
    else [s[0]] + RemoveAll(s[1..], pat)
  }

  /** The file name a record with this id is written to. */
  function FileName(id: int): (r: string)
    ensures |r| > 5 && r[|r| - 5..] == ".json"
  {
    ShowLong(id) + ".json"
  }

  /** The id the start-up scan reads from a file name, if any. */
  function IdOf(name: string): Option<int>
  {
    ParseLong(RemoveAll(name, ".json"))
  }

  lemma {:induction false} DigitsRoundTrip(n: nat)
    ensures DigitsValue(Digits(n)) == n
    decreases n
  {
    if n >= 10 {
      var s := Digits(n);
      assert s[..|s| - 1] == Digits(n / 10);
      DigitsRoundTrip(n / 10);
    }
  }

  /** Long.parseLong(Long.toString(i)) == i. */
  lemma ParseShowLong(i: int)
    requires InLong(i)
    ensures ParseLong(ShowLong(i)) == Some(i)
  {
    var s := ShowLong(i);
    if i < 0 {
      var d := Digits(-i);
      assert s == "-" + d;
      assert s[1..] == d;
      DigitsRoundTrip(-i);
    } else {
      assert IsDigit(s[0]);
      DigitsRoundTrip(i);
    }
  }

  /** Removing every occurrence of pat from t + pat gives back t, when no character
      of t can start pat. */
  lemma {:induction false} RemoveTrailing(t: string, pat: string)
    requires |pat| > 0
    requires forall i :: 0 <= i < |t| ==> t[i] != pat[0]
    ensures RemoveAll(t + pat, pat) == t
    decreases |t|
  {
    if t == [] {
      assert (t + pat)[..|pat|] == pat;
      assert (t + pat)[|pat|..] == [];
    } else {
      var s := t + pat;
      assert s[..|pat|][0] == t[0];
      assert s[1..] == t[1..] + pat;
      RemoveTrailing(t[1..], pat);
    }
  }

  /** A record file written for id is read back as id by the start-up scan. */
  lemma FileNameRoundTrip(id: int)
    requires InLong(id)
    ensures IdOf(FileName(id)) == Some(id)
  {
    var t := ShowLong(id);
    assert forall i :: 0 <= i < |t| ==> t[i] != '.' by {
      if id < 0 {
        assert t == "-" + Digits(-id);
        assert forall i :: 1 <= i < |t| ==> t[i] == Digits(-id)[i - 1];
      }
    }
    RemoveTrailing(t, ".json");
    ParseShowLong(id);
  }

  /** One step of the scan: `max = Math.max(max, parsed)`, skipped when parsing throws. */
  function Raise(max: int, name: string): int
  {
    match IdOf(name)
    case Some(v) => if v > max then v else max
    case None => max
  }

  /** The scan over names starting from a running maximum. */
  function RaiseAll(max: int, names: seq<string>): int
  {
    if names == [] then max else Raise(RaiseAll(max, names[..|names| - 1]), names[|names| - 1])
  }

  /** The largest id read from the names, or 0 when none parses (`long max = 0`). */
  function MaxParsed(names: seq<string>): int
  {
    RaiseAll(0, names)
  }

  /** Scanning a + b is scanning b from where the scan of a stopped. */
  lemma {:induction false} RaiseAllConcat(max: int, a: seq<string>, b: seq<string>)
    ensures RaiseAll(max, a + b) == RaiseAll(RaiseAll(max, a), b)
    decreases |b|
  {
    if b != [] {
      assert (a + b)[..|a + b| - 1] == a + b[..|b| - 1];
      RaiseAllConcat(max, a, b[..|b| - 1]);
    } else {
      assert a + b == a;
    }
  }

  /** MaxParsed is at least 0 and at least every id read from the names. */
  lemma {:induction false} MaxParsedIsUpperBound(names: seq<string>)
    ensures MaxParsed(names) >= 0
    ensures forall i :: 0 <= i < |names| && IdOf(names[i]).Some? ==> IdOf(names[i]).value <= MaxParsed(names)
  {
    if names != [] {
      var init := names[..|names| - 1];
      MaxParsedIsUpperBound(init);
      forall i | 0 <= i < |init|
        ensures init[i] == names[i]
      {
      }
    }
  }

  /** MaxParsed is 0 or one of the ids read from the names. */
  lemma {:induction false} MaxParsedIsAttained(names: seq<string>)
    ensures MaxParsed(names) == 0 || exists i :: 0 <= i < |names| && IdOf(names[i]) == Some(MaxParsed(names))
  {
    if names != [] {
      var init := names[..|names| - 1];
      MaxParsedIsAttained(init);
      if MaxParsed(names) != 0 && MaxParsed(names) == MaxParsed(init) {
        var i :| 0 <= i < |init| && IdOf(init[i]) == Some(MaxParsed(init));
        assert names[i] == init[i];
      }
    }
  }

  /** The concatenation of per-directory listings, in listing order. */
  function Flatten(listings: seq<seq<string>>): seq<string>
  {
    if listings == [] then [] else Flatten(listings[..|listings| - 1]) + listings[|listings| - 1]
  }

  /** initId of the category store: one pass over the directory listing. */
  method RecoverNextId(names: seq<string>) returns (next: int)
    ensures next == MaxParsed(names) + 1
  {
    var max := 0;
    for i := 0 to |names|
      invariant max == RaiseAll(0, names[..i])
    {
      assert names[..i + 1][..i] == names[..i];
      max := Raise(max, names[i]);
    }
    assert names[..|names|] == names;
    next := max + 1;
  }

  /** initId of the product store: every partition directory, every file in it. */
  method RecoverNextIdAll(listings: seq<seq<string>>) returns (next: int)
    ensures next == MaxParsed(Flatten(listings)) + 1
  {
    var max := 0;
    for d := 0 to |listings|
      invariant max == RaiseAll(0, Flatten(listings[..d]))
    {
      var files := listings[d];
      ghost var start := max;
      for i := 0 to |files|
        invariant max == RaiseAll(start, files[..i])
      {
        assert files[..i + 1][..i] == files[..i];
        max := Raise(max, files[i]);
      }
      assert files[..|files|] == files;
      assert listings[..d + 1][..d] == listings[..d];
      RaiseAllConcat(0, Flatten(listings[..d]), files);
    }
    assert listings[..|listings|] == listings;
    next := max + 1;
  }

  /** After a restart every record whose file is listed has an id below the
      recovered counter, so the next save cannot overwrite it. */
  lemma RecoveredAboveListed(names: seq<string>, id: int)
    requires InLong(id)
    requires FileName(id) in names
    ensures id < MaxParsed(names) + 1
  {
    FileNameRoundTrip(id);
    MaxParsedIsUpperBound(names);
    var i :| 0 <= i < |names| && names[i] == FileName(id);
  }
}
