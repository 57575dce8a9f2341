/** Choice of the log to analyse: the newest `nginx-access-ui.log-YYYYMMDD`
    file by the date in its name (`get_latest_logfile`), and the choice
    between the gzip and the plain-text reader (`log_parser`). */
module LogFiles {

  datatype Option<T> = None | Some(value: T)

  // ---------------------------------------------------------------------
  // Reader dispatch.

  /** How `log_parser` opens a log file. */
  datatype Reader = GzipReader | PlainReader

  /** A path ending in ".gz" is read through gzip, any other as plain text. */
  function SelectReader(path: string): (r: Reader)
    ensures r == GzipReader <==> exists stem :: path == stem + ".gz"
  {
    var n := |path|;
    if n >= 3 && path[n - 3..] == ".gz" then
      assert path == path[..n - 3] + ".gz";
      GzipReader
    else
      PlainReader
  }

  // ---------------------------------------------------------------------
  // The file name shape `nginx-access-ui\.log-(\d{8})(\_SHORT|\.gz)?$`.

  const Prefix: string := "nginx-access-ui.log-"

  predicate IsDigit(c: char)
  {
    '0' <= c <= '9'
  }

  predicate AllDigits(s: string)
  {
    forall i :: 0 <= i < |s| ==> IsDigit(s[i])
  }

  /** `int(...)` of a string of decimal digits. */
  function Decimal(s: string): nat
    requires AllDigits(s)
  {
    if s == [] then 0
    else Decimal(s[..|s| - 1]) * 10 + (s[|s| - 1] as int - '0' as int)
  }

  /** What `$` accepts: the end of the name, or one newline that ends it. */
  predicate AtEnd(rest: string)
  {
    rest == "" || rest == "\n"
  }

  /** What `(\_SHORT|\.gz)?$` accepts after the eight digits. */
  predicate ValidTail(rest: string)
  {
    || AtEnd(rest)
    || (|rest| >= 6 && rest[..6] == "_SHORT" && AtEnd(rest[6..]))
    || (|rest| >= 3 && rest[..3] == ".gz" && AtEnd(rest[3..]))
  }

  /** The date of a log file name matched from its start, as a number, or
      `None` when the name does not have the log file shape. A name that
      matches is built from the date it yields, as `LogName` builds it. */
  function LogDate(name: string): (d: Option<nat>)
    ensures d.Some? ==> d.value < Pow10(8)
    ensures d.Some? ==> exists suffix, newline :: name == LogName(d.value, suffix, newline)
  {
    if |name| >= |Prefix| + 8 && name[..|Prefix|] == Prefix
       && AllDigits(name[|Prefix|..|Prefix| + 8]) && ValidTail(name[|Prefix| + 8..])
    then
      var digits := name[|Prefix|..|Prefix| + 8];
      var rest := name[|Prefix| + 8..];
      var date := Decimal(digits);
      DigitsOfDecimal(digits);
      assert name == Prefix + digits + rest;
      var suffix :=
        if |rest| >= 6 && rest[..6] == "_SHORT" then Short
        else if |rest| >= 3 && rest[..3] == ".gz" then Gz
        else NoSuffix;
      var newline := rest == SuffixText(suffix) + "\n";
      assert rest == SuffixText(suffix) + (if newline then "\n" else "");
      assert name == LogName(date, suffix, newline);
      Some(date)
    else None
  }

  // ---------------------------------------------------------------------
  // The names that have the shape, built from their parts.

  /** The optional group after the date. */
  datatype Suffix = NoSuffix | Short | Gz

  function SuffixText(s: Suffix): string
  {
    match s
    case NoSuffix => ""
    case Short => "_SHORT"
    case Gz => ".gz"
  }

  function Pow10(n: nat): nat
  {
    if n == 0 then 1 else 10 * Pow10(n - 1)
  }

  /** The last `width` decimal digits of `d`, zero-padded. */
  function Digits(d: nat, width: nat): (s: string)
    ensures |s| == width && AllDigits(s)
  {
    if width == 0 then []
    else Digits(d / 10, width - 1) + [('0' as int + d % 10) as char]
  }

  /** The log file name for an eight-digit date. */
  function LogName(date: nat, suffix: Suffix, newline: bool): string
    requires date < Pow10(8)
  {
    Prefix + Digits(date, 8) + SuffixText(suffix) + (if newline then "\n" else "")
  }

  lemma {:induction false} DecimalOfDigits(d: nat, width: nat)
    requires d < Pow10(width)
    ensures Decimal(Digits(d, width)) == d
  {
    if width > 0 {
      var s := Digits(d, width);
      DecimalOfDigits(d / 10, width - 1);
      assert s[..|s| - 1] == Digits(d / 10, width - 1);
    }
  }

  lemma {:induction false} DigitsOfDecimal(s: string)
    requires AllDigits(s)
    ensures Decimal(s) < Pow10(|s|)
    ensures Digits(Decimal(s), |s|) == s
  {
    if s != [] {
      var init := s[..|s| - 1];
      DigitsOfDecimal(init);
      var c := s[|s| - 1] as int - '0' as int;
      assert Decimal(s) / 10 == Decimal(init) && Decimal(s) % 10 == c;
      assert s == init + [s[|s| - 1]];
    }
  }

  /** Every name built from a date, an optional suffix and an optional final
      newline matches, and the match yields that date. */
  lemma LogDateOfLogName(date: nat, suffix: Suffix, newline: bool)
    requires date < Pow10(8)
    ensures LogDate(LogName(date, suffix, newline)) == Some(date)
  {
    var name := LogName(date, suffix, newline);
    var digits := Digits(date, 8);
    var tail := SuffixText(suffix) + (if newline then "\n" else "");
    assert name == Prefix + digits + tail;
    assert name[..|Prefix|] == Prefix;
    assert name[|Prefix|..|Prefix| + 8] == digits;
    assert name[|Prefix| + 8..] == tail;
    DecimalOfDigits(date, 8);
    match suffix
    case NoSuffix =>
    case Short => assert tail[6..] == (if newline then "\n" else "");
    case Gz => assert tail[3..] == (if newline then "\n" else "");
  }

  // ---------------------------------------------------------------------
  // Selection of the newest log.

  /** The date by which a name competes: its date when it matches, 0 when
      it does not (0 is also the starting `latest_date`, so neither a
      non-matching name nor the date 00000000 is ever chosen). */
  function Rank(name: string): nat
  {
    match LogDate(name)
    case Some(d) => d
    case None => 0
  }

  /** `names[k]` is the choice: it matches with a positive date, no name has
      a later date, and every earlier name has an earlier date. */
  ghost predicate IsLatestAt(names: seq<string>, k: int)
  {
    && 0 <= k < |names|
    && Rank(names[k]) > 0
    && (forall i :: 0 <= i < |names| ==> Rank(names[i]) <= Rank(names[k]))
    && (forall i :: 0 <= i < k ==> Rank(names[i]) < Rank(names[k]))
  }

  /** The selection loop of `get_latest_logfile` over a listing of names:
      the first name with the greatest date, or `None` when no name matches
      with a positive date. */
  method LatestLogfile(names: seq<string>) returns (latest: Option<string>)
    ensures latest.None? <==> forall i :: 0 <= i < |names| ==> Rank(names[i]) == 0
    ensures latest.Some? ==> exists k :: IsLatestAt(names, k) && names[k] == latest.value
    ensures forall k :: IsLatestAt(names, k) ==> latest == Some(names[k])
  {
    latest := None;
    var latestDate: nat := 0;
    ghost var at := -1;
    for i := 0 to |names|
      invariant latestDate == 0 <==> latest.None?
      invariant forall j :: 0 <= j < i ==> Rank(names[j]) <= latestDate
      invariant latest.Some? ==>
                  && 0 <= at < i && names[at] == latest.value && Rank(names[at]) == latestDate
                  && forall j :: 0 <= j < at ==> Rank(names[j]) < latestDate
    {
      match LogDate(names[i]) {
        case Some(date) =>
          if date > latestDate {
            latestDate := date;
            latest := Some(names[i]);
            at := i;
          }
        case None =>
      }
    }
    if latest.Some? {
      assert IsLatestAt(names, at);
    }
  }
}
