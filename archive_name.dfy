/** The archive name of main.go: `neo4j_backup_<UTC time>_<environment tag>.tar.gz`, the
    time laid out by the Go reference layout "2006-01-02T15-04-05". */
module ArchiveNaming {
  import opened Effects

  /** The Go layout string the time is formatted with; `FormatTimestamp` spells it out. */
  const ArchiveNameDateFormat := "2006-01-02T15-04-05"
  const ArchivePrefix := "neo4j_backup_"
  const ArchiveSuffix := ".tar.gz"
  const TimestampLength := 19

  /** The fields of `time.Now().UTC()` that the layout prints. */
  datatype UtcTime = UtcTime(year: nat, month: nat, day: nat, hour: nat, minute: nat, second: nat)

  /** A UTC time as the Go clock reports it, for years that print in four digits. */
  predicate ValidTime(t: UtcTime)
  {
    t.year <= 9999 && 1 <= t.month <= 12 && 1 <= t.day <= 31 &&
    t.hour < 24 && t.minute < 60 && t.second < 60
  }

  predicate IsDigit(c: char)
  {
    '0' <= c <= '9'
  }

  function Digit(d: nat): (c: char)
    requires d < 10
    ensures IsDigit(c)
  {
    ('0' as int + d) as char
  }

  function DigitValue(c: char): (d: nat)
    requires IsDigit(c)
    ensures d < 10
  {
    c as int - '0' as int
  }

  /** A number below 100 in two digits, zero-padded ("01" .. "12", "00" .. "59"). */
  function Pad2(n: nat): string
    requires n < 100
  {
    [Digit(n / 10), Digit(n % 10)]
  }

  /** A year below 10000 in four digits, zero-padded. */
  function Pad4(n: nat): string
    requires n < 10000
  {
    Pad2(n / 100) + Pad2(n % 100)
  }

  /** Positions of the layout that hold a separator rather than a digit. */
  function SeparatorAt(i: int): Option<char>
  {
    if i == 10 then Some('T')
    else if i == 4 || i == 7 || i == 13 || i == 16 then Some('-')
    else None
  }

  /** `s` has the shape `YYYY-MM-DDTHH-MM-SS`. */
  predicate TimestampShape(s: string)
  {
    |s| == TimestampLength &&
    forall i :: 0 <= i < |s| ==>
      match SeparatorAt(i)
      case Some(c) => s[i] == c
      case None => IsDigit(s[i])
  }

  /** `time.Now().UTC().Format(archiveNameDateFormat)`. */
  function FormatTimestamp(t: UtcTime): (s: string)
    requires ValidTime(t)
    ensures TimestampShape(s)
  {
    Pad4(t.year) + "-" + Pad2(t.month) + "-" + Pad2(t.day) + "T" +
    Pad2(t.hour) + "-" + Pad2(t.minute) + "-" + Pad2(t.second)
  }

  /** The archive name of main.go:125. */
  function ArchiveName(t: UtcTime, env: string): (r: string)
    requires ValidTime(t)
    ensures |r| == |ArchivePrefix| + TimestampLength + 1 + |env| + |ArchiveSuffix|
    ensures r[..13] == ArchivePrefix
    ensures TimestampShape(r[13..32]) && r[13..32] == FormatTimestamp(t)
    ensures r[32] == '_' && r[33..|r| - 7] == env
    ensures r[|r| - 7..] == ArchiveSuffix
  {
    var r := ArchivePrefix + FormatTimestamp(t) + "_" + env + ArchiveSuffix;
    assert r[..13] == ArchivePrefix;
    assert r[13..32] == FormatTimestamp(t);
    assert r[33..|r| - 7] == env;
    assert r[|r| - 7..] == ArchiveSuffix;
    r
  }

  /** The layout string is Go's reference time, 2006-01-02 15:04:05, printed in the layout. */
  lemma LayoutIsReferenceTime()
    ensures FormatTimestamp(UtcTime(2006, 1, 2, 15, 4, 5)) == ArchiveNameDateFormat
  {
  }

  // ---------------------------------------------------------------------------
  // The inverse: reading the time and the environment tag back from a name

  function Parse2(s: string, at: nat): (n: nat)
    requires at + 2 <= |s| && IsDigit(s[at]) && IsDigit(s[at + 1])
    ensures n < 100
  {
    10 * DigitValue(s[at]) + DigitValue(s[at + 1])
  }

  function Parse4(s: string, at: nat): (n: nat)
    requires at + 4 <= |s|
    requires IsDigit(s[at]) && IsDigit(s[at + 1]) && IsDigit(s[at + 2]) && IsDigit(s[at + 3])
    ensures n < 10000
  {
    100 * Parse2(s, at) + Parse2(s, at + 2)
  }

  function ParseTimestamp(s: string): Option<UtcTime>
  {
    if !TimestampShape(s) then None
    else
      assert SeparatorAt(0) == SeparatorAt(1) == SeparatorAt(2) == SeparatorAt(3) == None;
      assert SeparatorAt(5) == SeparatorAt(6) == SeparatorAt(8) == SeparatorAt(9) == None;
      assert SeparatorAt(11) == SeparatorAt(12) == SeparatorAt(14) == SeparatorAt(15) == None;
      assert SeparatorAt(17) == SeparatorAt(18) == None;
      var t := UtcTime(Parse4(s, 0), Parse2(s, 5), Parse2(s, 8), Parse2(s, 11), Parse2(s, 14), Parse2(s, 17));
      if ValidTime(t) then Some(t) else None
  }

  function ParseArchiveName(s: string): Option<(UtcTime, string)>
  {
    if |s| < 40 || s[..13] != ArchivePrefix || s[32] != '_' || s[|s| - 7..] != ArchiveSuffix then None
    else
      match ParseTimestamp(s[13..32])
      case Some(t) => Some((t, s[33..|s| - 7]))
      case None => None
  }

  lemma Pad2Parse2(s: string, at: nat, n: nat)
    requires n < 100 && at + 2 <= |s| && s[at..at + 2] == Pad2(n)
    ensures IsDigit(s[at]) && IsDigit(s[at + 1]) && Parse2(s, at) == n
  {
    assert s[at] == Pad2(n)[0] && s[at + 1] == Pad2(n)[1];
  }

  lemma Pad4Parse4(s: string, at: nat, n: nat)
    requires n < 10000 && at + 4 <= |s| && s[at..at + 4] == Pad4(n)
    ensures IsDigit(s[at]) && IsDigit(s[at + 1]) && IsDigit(s[at + 2]) && IsDigit(s[at + 3])
    ensures Parse4(s, at) == n
  {
    assert s[at..at + 2] == Pad2(n / 100);
    assert s[at + 2..at + 4] == Pad2(n % 100);
    Pad2Parse2(s, at, n / 100);
    Pad2Parse2(s, at + 2, n % 100);
  }

  lemma Parse2Pad2(s: string, at: nat)
    requires at + 2 <= |s| && IsDigit(s[at]) && IsDigit(s[at + 1])
    ensures s[at..at + 2] == Pad2(Parse2(s, at))
  {
    var n := Parse2(s, at);
    assert n / 10 == DigitValue(s[at]) && n % 10 == DigitValue(s[at + 1]);
  }

  lemma Parse4Pad4(s: string, at: nat)
    requires at + 4 <= |s|
    requires IsDigit(s[at]) && IsDigit(s[at + 1]) && IsDigit(s[at + 2]) && IsDigit(s[at + 3])
    ensures s[at..at + 4] == Pad4(Parse4(s, at))
  {
    var n := Parse4(s, at);
    assert n / 100 == Parse2(s, at) && n % 100 == Parse2(s, at + 2);
    Parse2Pad2(s, at);
    Parse2Pad2(s, at + 2);
    assert s[at..at + 4] == s[at..at + 2] + s[at + 2..at + 4];
  }

  /** The pieces of a formatted time, position by position. */
  lemma FormatTimestampPieces(t: UtcTime)
    requires ValidTime(t)
    ensures var s := FormatTimestamp(t);
            && s[0..4] == Pad4(t.year) && s[5..7] == Pad2(t.month) && s[8..10] == Pad2(t.day)
            && s[11..13] == Pad2(t.hour) && s[14..16] == Pad2(t.minute) && s[17..19] == Pad2(t.second)
  {
  }

  /** Reading a formatted time gives back the time. */
  lemma TimestampRoundTrip(t: UtcTime)
    requires ValidTime(t)
    ensures ParseTimestamp(FormatTimestamp(t)) == Some(t)
  {
    var s := FormatTimestamp(t);
    FormatTimestampPieces(t);
    Pad4Parse4(s, 0, t.year);
    Pad2Parse2(s, 5, t.month);
    Pad2Parse2(s, 8, t.day);
    Pad2Parse2(s, 11, t.hour);
    Pad2Parse2(s, 14, t.minute);
    Pad2Parse2(s, 17, t.second);
  }

  /** Every string of the layout that reads as a valid time is that time's formatting. */
  lemma TimestampParsedIsFormatted(s: string, t: UtcTime)
    requires ParseTimestamp(s) == Some(t)
    ensures ValidTime(t) && FormatTimestamp(t) == s
  {
    assert SeparatorAt(0) == SeparatorAt(1) == SeparatorAt(2) == SeparatorAt(3) == None;
    assert SeparatorAt(5) == SeparatorAt(6) == SeparatorAt(8) == SeparatorAt(9) == None;
    assert SeparatorAt(11) == SeparatorAt(12) == SeparatorAt(14) == SeparatorAt(15) == None;
    assert SeparatorAt(17) == SeparatorAt(18) == None;
    Parse4Pad4(s, 0);
    Parse2Pad2(s, 5);
    Parse2Pad2(s, 8);
    Parse2Pad2(s, 11);
    Parse2Pad2(s, 14);
    Parse2Pad2(s, 17);
    var f := FormatTimestamp(t);
    FormatTimestampPieces(t);
    assert SeparatorAt(4) == SeparatorAt(7) == SeparatorAt(13) == SeparatorAt(16) == Some('-');
    assert SeparatorAt(10) == Some('T');
    forall i | 0 <= i < 19
      ensures f[i] == s[i]
    {
      if i < 4 { assert f[i] == f[0..4][i] && s[i] == s[0..4][i]; }
      else if 4 < i < 7 { assert f[i] == f[5..7][i - 5] && s[i] == s[5..7][i - 5]; }
      else if 7 < i < 10 { assert f[i] == f[8..10][i - 8] && s[i] == s[8..10][i - 8]; }
      else if 10 < i < 13 { assert f[i] == f[11..13][i - 11] && s[i] == s[11..13][i - 11]; }
      else if 13 < i < 16 { assert f[i] == f[14..16][i - 14] && s[i] == s[14..16][i - 14]; }
      else if 16 < i { assert f[i] == f[17..19][i - 17] && s[i] == s[17..19][i - 17]; }
    }
  }

  /** The archive name can be read back: the time and the environment tag it was built from. */
  lemma ArchiveNameRoundTrip(t: UtcTime, env: string)
    requires ValidTime(t)
    ensures ParseArchiveName(ArchiveName(t, env)) == Some((t, env))
  {
    TimestampRoundTrip(t);
  }

  /** Every string that reads as an archive name is exactly the name built from what it reads as. */
  lemma ParsedArchiveNameIsBuilt(s: string, t: UtcTime, env: string)
    requires ParseArchiveName(s) == Some((t, env))
    ensures ValidTime(t) && ArchiveName(t, env) == s
  {
    TimestampParsedIsFormatted(s[13..32], t);
    var r := ArchiveName(t, env);
    assert s == s[..13] + s[13..32] + [s[32]] + s[33..|s| - 7] + s[|s| - 7..];
    assert r == r[..13] + r[13..32] + [r[32]] + r[33..|r| - 7] + r[|r| - 7..];
  }

  /** Two runs started in different seconds, or in different environments, never share an archive name. */
  lemma ArchiveNameInjective(t1: UtcTime, env1: string, t2: UtcTime, env2: string)
    requires ValidTime(t1) && ValidTime(t2)
    requires ArchiveName(t1, env1) == ArchiveName(t2, env2)
    ensures t1 == t2 && env1 == env2
  {
    ArchiveNameRoundTrip(t1, env1);
    ArchiveNameRoundTrip(t2, env2);
  }
}
