/**
  Output-folder numbering of `get_next_output_folder`: among the existing
  sub-directories whose name starts with `output` followed by digits, find
  the largest number and return `output{max + 1}`.
 */
module Folders {

  /** One entry of the base directory listing. */
  datatype Entry = Entry(name: string, isDir: bool)

  const Prefix: string := "output"

  predicate IsDigit(c: char) {
    '0' <= c <= '9'
  }

  /** `re.match(r'output\d+', name)`: the prefix and at least one digit. */
  predicate IsOutputName(name: string) {
    |name| > |Prefix| && name[..|Prefix|] == Prefix && IsDigit(name[|Prefix|])
  }

  /** The longest run of digits at the front of `s` (the greedy `\d+`). */
  function LeadingDigits(s: string): (r: string)
    ensures r <= s
    ensures forall i :: 0 <= i < |r| ==> IsDigit(r[i])
    ensures |r| < |s| ==> !IsDigit(s[|r|])
    decreases |s|
  {
    if |s| == 0 || !IsDigit(s[0]) then [] else [s[0]] + LeadingDigits(s[1..])
  }

  /** `int(...)` of a string of decimal digits. */
  function DigitsValue(ds: string): nat
    requires forall i :: 0 <= i < |ds| ==> IsDigit(ds[i])
    decreases |ds|
  {
    if |ds| == 0 then 0
    else
      assert IsDigit(ds[|ds| - 1]);
      DigitsValue(ds[..|ds| - 1]) * 10 + (ds[|ds| - 1] as int - '0' as int)
  }

  /** The number captured by `output(\d+)` in an output folder name. */
  function Suffix(name: string): nat
    requires IsOutputName(name)
  {
    DigitsValue(LeadingDigits(name[|Prefix|..]))
  }

  /** The listing entries the scan counts: directories with an output name. */
  predicate Counted(e: Entry) {
    e.isDir && IsOutputName(e.name)
  }

  /**
    `max_num` after the scan: 0 when nothing is counted, otherwise the
    largest suffix among the counted entries.
   */
  function MaxSuffix(entries: seq<Entry>): (m: nat)
    ensures forall i :: 0 <= i < |entries| && Counted(entries[i]) ==> Suffix(entries[i].name) <= m
    ensures m == 0 || exists i :: 0 <= i < |entries| && Counted(entries[i]) && Suffix(entries[i].name) == m
    decreases |entries|
  {
    if |entries| == 0 then 0
    else
      var rest := MaxSuffix(entries[1..]);
      assert forall i :: 1 <= i < |entries| ==> entries[i] == entries[1..][i - 1];
      if Counted(entries[0]) && Suffix(entries[0].name) > rest then Suffix(entries[0].name) else rest
  }

  /** The decimal digits of `n`, without leading zeros. */
  function Decimal(n: nat): (r: string)
    ensures |r| > 0
    ensures forall i :: 0 <= i < |r| ==> IsDigit(r[i])
    decreases n
  {
    if n < 10 then ['0' + n as char]
    else Decimal(n / 10) + ['0' + (n % 10) as char]
  }

  /** Printing a number in decimal and reading it back gives the number. */
  lemma {:induction false} DecimalRoundTrip(n: nat)
    ensures DigitsValue(Decimal(n)) == n
    decreases n
  {
    var d := Decimal(n);
    if n >= 10 {
      DecimalRoundTrip(n / 10);
      assert d[..|d| - 1] == Decimal(n / 10);
    }
  }

  /** A string made only of digits is its own greedy digit run. */
  lemma {:induction false} LeadingDigitsOfDigits(s: string)
    requires forall i :: 0 <= i < |s| ==> IsDigit(s[i])
    ensures LeadingDigits(s) == s
    decreases |s|
  {
    if |s| > 0 {
      LeadingDigitsOfDigits(s[1..]);
    }
  }

  /**
    The number the next folder gets, and its name. The number is strictly
    greater than every counted suffix, and it is the least such number that
    exceeds the largest one (or 1 when there is none).
   */
  function NextOutputFolder(entries: seq<Entry>): (r: (nat, string))
    ensures r.0 >= 1
    ensures forall i :: 0 <= i < |entries| && Counted(entries[i]) ==> Suffix(entries[i].name) < r.0
    ensures r.0 == 1 || exists i :: 0 <= i < |entries| && Counted(entries[i]) && Suffix(entries[i].name) == r.0 - 1
    ensures IsOutputName(r.1) && Suffix(r.1) == r.0
  {
    var next := MaxSuffix(entries) + 1;
    var name := Prefix + Decimal(next);
    assert name[|Prefix|..] == Decimal(next);
    LeadingDigitsOfDigits(Decimal(next));
    DecimalRoundTrip(next);
    (next, name)
  }

  /**
    Creating the returned folder and asking again yields the following
    number: successive runs get successive output folders.
   */
  lemma NextAfterCreate(entries: seq<Entry>)
    ensures var (n, name) := NextOutputFolder(entries);
            NextOutputFolder(entries + [Entry(name, true)]).0 == n + 1
  {
    var (n, name) := NextOutputFolder(entries);
    var entries' := entries + [Entry(name, true)];
    var m' := MaxSuffix(entries');
    assert Counted(entries'[|entries|]);
    assert Suffix(entries'[|entries|].name) == n;
    assert forall i :: 0 <= i < |entries| ==> entries'[i] == entries[i];
  }
}
