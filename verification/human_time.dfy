/** `toHumanTime` in server.js: a duration in whole seconds as `h:mm:ss`, or
    `mm:ss` when the hours component would be `00`. */
module HumanTime {
  import opened Text

  /** One component: values below ten get a leading `'0'`, others are printed
      as they are (so hours may take more than two digits). */
  function Pad(v: nat): (r: string)
    ensures |r| >= 2 && AllDigits(r) && DecimalValue(r) == v
    ensures v < 100 ==> |r| == 2
    ensures r == "00" <==> v == 0
    ensures |r| == 2 || r[0] != '0'
  {
    if v < 10 then
      var r := "0" + NatToString(v);
      assert r[..|r| - 1] == "0";
      assert DecimalValue("0") == 0 by { assert "0"[..0] == []; }
      r
    else
      var r := NatToString(v);
      if v < 100 then
        assert |r| == 2 by { TwoDigits(v); }
        r
      else
        r
  }

  /** A number from 10 to 99 prints as two digits. */
  lemma TwoDigits(v: nat)
    requires 10 <= v < 100
    ensures |NatToString(v)| == 2
  {
    assert NatToString(v / 10) == [DigitChar(v / 10)];
  }

  /** The hours, minutes and seconds `toHumanTime` derives add back up to `n`. */
  lemma Components(n: nat)
    ensures n % 60 < 60 && (n % 3600) / 60 < 60
    ensures (n / 3600) * 3600 + ((n % 3600) / 60) * 60 + n % 60 == n
    ensures n < 3600 <==> n / 3600 == 0
  {
    assert n % 3600 == ((n % 3600) / 60) * 60 + (n % 3600) % 60;
    assert (n % 3600) % 60 == n % 60 by {
      assert n == (n / 3600) * 3600 + n % 3600;
      assert (n / 3600) * 3600 == ((n / 3600) * 60) * 60;
    }
  }

  /** `Array.prototype.join(':')` over a non-empty list of fields. */
  function Join(parts: seq<string>): string
    requires |parts| >= 1
  {
    if |parts| == 1 then parts[0] else Join(parts[..|parts| - 1]) + ":" + parts[|parts| - 1]
  }

  /** Where the fields of a joined `mm:ss` sit, counted from the end. */
  lemma PairSlices(mm: string, ss: string)
    requires |mm| == 2 && |ss| == 2
    ensures var r := Join([mm, ss]);
      && |r| == 5 && r[|r| - 3] == ':' && r[|r| - 5..|r| - 3] == mm && r[|r| - 2..] == ss
  {
  }

  /** Where the fields of a joined `h:mm:ss` sit, counted from the end. */
  lemma TripleSlices(hh: string, mm: string, ss: string)
    requires |hh| >= 1 && |mm| == 2 && |ss| == 2
    ensures var r := Join([hh, mm, ss]);
      && |r| == |hh| + 6 && r[0] == hh[0] && r[|r| - 3] == ':' && r[|r| - 6] == ':'
      && r[..|r| - 6] == hh && r[|r| - 5..|r| - 3] == mm && r[|r| - 2..] == ss
  {
    assert Join([hh, mm]) == hh + ":" + mm by { assert [hh, mm][..1] == [hh]; }
    assert [hh, mm, ss][..2] == [hh, mm];
    var r := hh + ":" + mm + ":" + ss;
    assert r[..|r| - 6] == hh;
    assert r[|r| - 5..|r| - 3] == mm && r[|r| - 2..] == ss;
  }

  /** The fields `h`, `m`, `s` padded, the hours dropped when they print as
      "00", and the rest joined by ':'. */
  function FieldsText(h: nat, m: nat, s: nat): (r: string)
    requires m < 60 && s < 60
    ensures h == 0 <==> |r| == 5
    ensures |r| >= 5 && r[|r| - 3] == ':'
    ensures r[|r| - 5..|r| - 3] == Pad(m) && r[|r| - 2..] == Pad(s)
    ensures h != 0 ==> |r| >= 8 && r[|r| - 6] == ':' && r[..|r| - 6] == Pad(h)
    ensures h != 0 ==> |r| == 8 || r[0] != '0'
  {
    // The filter drops the hours when they print as "00", that is, exactly
    // when they are zero (`Pad`'s contract); it keeps the minutes and
    // seconds whatever they print as.
    if h == 0 then
      PairSlices(Pad(m), Pad(s));
      Join([Pad(m), Pad(s)])
    else
      TripleSlices(Pad(h), Pad(m), Pad(s));
      Join([Pad(h), Pad(m), Pad(s)])
  }

  /** `r` is how `toHumanTime` writes `n` seconds: `mm:ss` exactly when the
      hours are zero, otherwise `h:mm:ss` with the hours written without a
      leading zero once they pass two digits; the minutes and seconds are
      below sixty and the fields add back up to `n`. */
  predicate ShowsDuration(r: string, n: nat)
  {
    && (n < 3600 <==> |r| == 5)
    && |r| >= 5 && r[|r| - 3] == ':'
    && (var mm := r[|r| - 5..|r| - 3]; var ss := r[|r| - 2..];
        && AllDigits(mm) && AllDigits(ss)
        && DecimalValue(mm) < 60 && DecimalValue(ss) < 60
        && (n < 3600 ==> DecimalValue(mm) * 60 + DecimalValue(ss) == n))
    && (n >= 3600 ==>
        && |r| >= 8 && r[|r| - 6] == ':' && (|r| == 8 || r[0] != '0')
        && var hh := r[..|r| - 6]; var mm := r[|r| - 5..|r| - 3]; var ss := r[|r| - 2..];
           AllDigits(hh) && DecimalValue(hh) * 3600 + DecimalValue(mm) * 60 + DecimalValue(ss) == n)
  }

  /** The text `toHumanTime(n)` produces. */
  function ToHumanTime(n: nat): (r: string)
    ensures ShowsDuration(r, n)
  {
    var h, m, s := n / 3600, (n % 3600) / 60, n % 60;
    Components(n);
    var r := FieldsText(h, m, s);
    AddsUp(n, h, m, s, r, Pad(h), Pad(m), Pad(s));
    r
  }

  /** A text whose fields are numerals for `h`, `m` and `s` (the hours left
      out when zero) shows `h * 3600 + m * 60 + s` seconds. */
  lemma AddsUp(n: nat, h: nat, m: nat, s: nat, r: string, hh: string, mm: string, ss: string)
    requires h * 3600 + m * 60 + s == n && m < 60 && s < 60 && (n < 3600 <==> h == 0)
    requires AllDigits(hh) && DecimalValue(hh) == h
    requires AllDigits(mm) && DecimalValue(mm) == m && AllDigits(ss) && DecimalValue(ss) == s
    requires h == 0 <==> |r| == 5
    requires |r| >= 5 && r[|r| - 3] == ':' && r[|r| - 5..|r| - 3] == mm && r[|r| - 2..] == ss
    requires h != 0 ==> |r| >= 8 && r[|r| - 6] == ':' && r[..|r| - 6] == hh
    requires h != 0 ==> |r| == 8 || r[0] != '0'
    ensures ShowsDuration(r, n)
  {
  }
}
