/** `columnFromNumber` of google-sheets.cpp: the names of spreadsheet columns, A to Z, AA, AB, ... */
module ColumnNames {

  const MAX_INT32 := 0x7FFF_FFFF
  const MIN_INT32 := -0x8000_0000

  function Letter(n: nat): (c: char)
    requires n < 26
    ensures 'A' <= c <= 'Z' && c as int == n + 65
  {
    (n + 65) as char
  }

  /** The name of the `n`-th column, counted from 1; the empty name for 0. */
  function Name(n: nat): string {
    if n == 0 then "" else Name((n - 1) / 26) + [Letter((n - 1) % 26)]
  }

  method ColumnFromNumber(column: int) returns (columnString: string)
    requires MIN_INT32 <= column < MAX_INT32
    ensures columnString == if column < 0 then "" else Name(column + 1)
  {
    columnString := "";
    var columnNumber := column + 1;
    while columnNumber > 0
      invariant column < 0 ==> columnString == "" && columnNumber <= 0
      invariant column >= 0 ==> columnNumber >= 0 && Name(columnNumber) + columnString == Name(column + 1)
    {
      var currentLetterNumber := (columnNumber - 1) % 26;
      NameStep(columnNumber, columnString);
      columnString := [Letter(currentLetterNumber)] + columnString;
      columnNumber := (columnNumber - (currentLetterNumber + 1)) / 26;
    }
  }

  lemma NameStep(n: nat, rest: string)
    requires n > 0
    ensures (n - ((n - 1) % 26 + 1)) / 26 == (n - 1) / 26 < n
    ensures Name(n) + rest == Name((n - 1) / 26) + ([Letter((n - 1) % 26)] + rest)
  {
  }

  // ---- A bijection ----

  predicate IsName(s: string) {
    forall i :: 0 <= i < |s| ==> 'A' <= s[i] <= 'Z'
  }

  /** The number that a name denotes in base 26 with digits 1 to 26. */
  function Number(s: string): nat
    requires IsName(s)
  {
    if s == "" then 0 else Number(s[..|s| - 1]) * 26 + (s[|s| - 1] as int - 64)
  }

  lemma NumberOfNothing()
    ensures IsName("") && Number("") == 0
  {
  }

  lemma NumberMore(s: string, c: char)
    requires IsName(s) && 'A' <= c <= 'Z'
    ensures IsName(s + [c]) && Number(s + [c]) == Number(s) * 26 + (c as int - 64)
  {
    assert (s + [c])[..|s|] == s;
  }

  lemma {:induction false} NumberOfName(n: nat)
    ensures IsName(Name(n)) && Number(Name(n)) == n
    ensures n > 0 ==> Name(n) != ""
  {
    hide Number, IsName;
    NumberOfNothing();
    if n > 0 {
      NumberOfName((n - 1) / 26);
      NumberMore(Name((n - 1) / 26), Letter((n - 1) % 26));
    }
  }

  lemma {:induction false} NameOfNumber(s: string)
    requires IsName(s)
    ensures Name(Number(s)) == s
  {
    if s != "" {
      var front, last := s[..|s| - 1], s[|s| - 1];
      NameOfNumber(front);
      assert (Number(s) - 1) / 26 == Number(front) && (Number(s) - 1) % 26 == last as int - 65;
      assert s == front + [last];
    }
  }

  // ---- Order ----

  /** Shorter names first; names of one length alphabetically. */
  ghost predicate Shortlex(a: string, b: string) {
    |a| < |b| || (|a| == |b| && exists k :: Differ(a, b, k) && a[k] < b[k])
  }

  /** `k` is the first position in which the names differ. */
  ghost predicate Differ(a: string, b: string, k: int) {
    0 <= k < |a| && k < |b| && a[k] != b[k] && forall j :: 0 <= j < k ==> a[j] == b[j]
  }

  lemma {:induction false} NamesAscend(n: nat, m: nat)
    requires n < m
    ensures Shortlex(Name(n), Name(m))
  {
    if n > 0 {
      var n', m' := (n - 1) / 26, (m - 1) / 26;
      var a, b := Name(n'), Name(m');
      if n' == m' {
        assert Differ(Name(n), Name(m), |a|);
      } else {
        NamesAscend(n', m');
        if |a| == |b| {
          var k :| Differ(a, b, k) && a[k] < b[k];
          assert Differ(Name(n), Name(m), k);
        }
      }
    }
  }

  lemma ShortlexAsymmetric(a: string, b: string)
    requires Shortlex(a, b)
    ensures a != b && !Shortlex(b, a)
  {
    if |a| == |b| {
      var k :| Differ(a, b, k) && a[k] < b[k];
    }
  }

  /** Columns are ordered as their names are. */
  lemma NamesKeepOrder(n: nat, m: nat)
    ensures n < m <==> Shortlex(Name(n), Name(m))
  {
    if n < m {
      NamesAscend(n, m);
    } else if m < n {
      NamesAscend(m, n);
      ShortlexAsymmetric(Name(m), Name(n));
    } else if Shortlex(Name(n), Name(n)) {
      ShortlexAsymmetric(Name(n), Name(n));
    }
  }
}
