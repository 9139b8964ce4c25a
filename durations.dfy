/**
 * The survey's elapsed-time fields: a number of seconds written as `HH:MM:SS`
 * (`_fmt_hms` for the survey page, `_fmt` inside the survey submission).
 * Timestamps are whole seconds, so a `timedelta` is an integer here.
 */
module Durations {
  import opened Wrappers
  import opened Text

  /** Hours, minutes and seconds of `secs`, as the two `divmod` calls of `_fmt` compute them. */
  function Split(secs: nat): (r: (nat, nat, nat))
    ensures r.0 * 3600 + r.1 * 60 + r.2 == secs
    ensures r.1 < 60 && r.2 < 60
  {
    (secs / 3600, (secs % 3600) / 60, secs % 60)
  }

  /** `f"{h:02d}:{m:02d}:{s:02d}"` for the split of `secs`. */
  function Hms(secs: nat): (r: string)
    ensures |r| >= 8 && r[|r| - 3] == ':' && r[|r| - 6] == ':'
  {
    var (h, m, s) := Split(secs);
    Pad2(h) + ":" + Pad2(m) + ":" + Pad2(s)
  }

  /** `_fmt_hms(delta)`: "" for a missing or zero delta, otherwise the delta floored at zero. */
  function FmtHms(delta: Option<int>): (r: string)
    ensures r == "" <==> delta.None? || delta.value == 0
    ensures r != "" ==> ParseHms(r) == Some(if delta.value < 0 then 0 else delta.value)
  {
    ParseHmsOfHms(if delta.Some? && delta.value > 0 then delta.value else 0);
    if delta.None? || delta.value == 0 then "" else Hms(if delta.value < 0 then 0 else delta.value)
  }

  /** `_fmt(delta)`: `None` for a missing or zero delta, otherwise the delta floored at zero. */
  function Fmt(delta: Option<int>): (r: Option<string>)
    ensures r.None? <==> delta.None? || delta.value == 0
    ensures r.Some? ==> r.value == FmtHms(delta)
    ensures r.Some? ==> ParseHms(r.value) == Some(if delta.value < 0 then 0 else delta.value)
  {
    ParseHmsOfHms(if delta.Some? && delta.value > 0 then delta.value else 0);
    if delta.None? || delta.value == 0 then None else Some(Hms(if delta.value < 0 then 0 else delta.value))
  }

  /**
   * Reads an `HH:MM:SS` text back into seconds: hours of at least two digits with no
   * needless leading zero, then minutes and seconds of two digits each, below 60.
   */
  function ParseHms(t: string): Option<nat> {
    if |t| >= 8 && t[|t| - 3] == ':' && t[|t| - 6] == ':'
       && AllDigits(t[..|t| - 6]) && AllDigits(t[|t| - 5..|t| - 3]) && AllDigits(t[|t| - 2..])
       && (|t| == 8 || t[0] != '0')
       && ValueOf(t[|t| - 5..|t| - 3]) < 60 && ValueOf(t[|t| - 2..]) < 60
    then Some(ValueOf(t[..|t| - 6]) * 3600 + ValueOf(t[|t| - 5..|t| - 3]) * 60 + ValueOf(t[|t| - 2..]))
    else None
  }

  /** The written duration denotes exactly the seconds it was made from. */
  lemma ParseHmsOfHms(secs: nat)
    ensures ParseHms(Hms(secs)) == Some(secs)
  {
    var (h, m, s) := Split(secs);
    var ph, pm, ps := Pad2(h), Pad2(m), Pad2(s);
    var t := Hms(secs);
    HmsOfSplit(secs, h, m, s);
    assert |pm| == 2 && |ps| == 2;
    assert t[..|t| - 6] == ph;
    assert t[|t| - 5..|t| - 3] == pm;
    assert t[|t| - 2..] == ps;
    assert t[0] == ph[0];
  }

  /** Every text that reads as a duration is the one `Hms` writes for it: the format is canonical. */
  lemma HmsCanonical(t: string)
    requires ParseHms(t).Some?
    ensures t == Hms(ParseHms(t).value)
  {
    var ph, pm, ps := t[..|t| - 6], t[|t| - 5..|t| - 3], t[|t| - 2..];
    var h, m, s := ValueOf(ph), ValueOf(pm), ValueOf(ps);
    assert ph[0] == t[0];
    PaddedDigits(ph);
    PaddedDigits(pm);
    PaddedDigits(ps);
    var secs := h * 3600 + m * 60 + s;
    assert ParseHms(t).value == secs;
    SplitOf(h, m, s);
    HmsOfSplit(secs, h, m, s);
    HmsFields(t);
  }

  lemma HmsOfSplit(secs: nat, h: nat, m: nat, s: nat)
    requires Split(secs) == (h, m, s)
    ensures Hms(secs) == Pad2(h) + ":" + Pad2(m) + ":" + Pad2(s)
  {
  }

  /** Hours, minutes below 60 and seconds below 60 are split back out of their total. */
  lemma SplitOf(h: nat, m: nat, s: nat)
    requires m < 60 && s < 60
    ensures Split(h * 3600 + m * 60 + s) == (h, m, s)
  {
    var secs := h * 3600 + m * 60 + s;
    assert secs / 3600 == h && secs % 3600 == m * 60 + s;
  }

  /** A text with colons six and three places from its end is its three fields joined by them. */
  lemma HmsFields(t: string)
    requires |t| >= 8 && t[|t| - 3] == ':' && t[|t| - 6] == ':'
    ensures t == t[..|t| - 6] + ":" + t[|t| - 5..|t| - 3] + ":" + t[|t| - 2..]
  {
  }
}
