/** The naming side of `upload_to_gcs.py`: for one taxi service and year,
    `web_to_gcs` walks the twelve months and, for each, builds the month
    string, the CSV archive name, the download URL, the local paths, the
    parquet name and the object name used for the upload. The download,
    the file writes, the parquet conversion and the upload itself are I/O
    and are not modelled; only the strings handed to them are. */
module GcsUpload {
  import opened Base
  import opened PyStr

  const DataDir: string := "../data"
  const InitUrl: string := "https://github.com/DataTalksClub/nyc-tlc-data/releases/download/"
  const MonthsPerYear: nat := 12
  const CsvSuffix: string := ".csv.gz"
  const ParquetSuffix: string := ".parquet"

  /** The string contains no '.'; true of every service and year the
      script passes ("green", "yellow", "fhv", "2019", "2020"). */
  predicate NoDot(s: string)
  {
    '.' !in s
  }

  /** A two-digit string reads as tens times ten plus units. */
  lemma ParseTwoDigits(a: char, b: char)
    requires IsDigit(a) && IsDigit(b)
    ensures ParseDecimal([a, b]) == DigitValue(a) * 10 + DigitValue(b)
  {
    assert [a, b][..1] == [a];
    assert [a][..0] == [];
    assert ParseDecimal([a]) == DigitValue(a);
  }

  /** A digit character reads back as its digit. */
  lemma DigitRoundTrip(d: nat)
    requires d < 10
    ensures DigitValue(DigitChar(d)) == d
  {
  }

  /** The last two decimal digits of a number recombine to the number
      modulo 100. */
  lemma LastTwoDigits(n: nat)
    ensures ((n / 10) % 10) * 10 + n % 10 == n % 100
  {
    var q := n / 100;
    var r := n % 100;
    assert n == 100 * q + r;
    assert n / 10 == 10 * q + r / 10;
    assert (n / 10) % 10 == r / 10;
    assert n % 10 == r % 10;
  }

  /** The decimal form of a number from 10 up ends in its tens digit and
      its units digit. */
  lemma LastTwoOfDecimal(n: nat)
    requires n >= 10
    ensures var d := NatToDecimal(n);
      |d| >= 2 && d[|d| - 2..] == [DigitChar((n / 10) % 10), DigitChar(n % 10)]
  {
    var head := NatToDecimal(n / 10);
    var d := NatToDecimal(n);
    assert d == head + [DigitChar(n % 10)];
    assert d[|d| - 2] == head[|head| - 1];
  }

  /** `('0' + str(n))[-2:]` consists of the tens digit and the units digit
      of `n`. */
  lemma PaddedDigits(n: nat)
    ensures LastChars("0" + NatToDecimal(n), 2) == [DigitChar((n / 10) % 10), DigitChar(n % 10)]
  {
    var d := NatToDecimal(n);
    var s := "0" + d;
    if n < 10 {
      assert d == [DigitChar(n)];
      assert (n / 10) % 10 == 0;
      assert s == [DigitChar(0), DigitChar(n)];
    } else {
      LastTwoOfDecimal(n);
      assert |s| >= 3;
      assert s[|s| - 2..] == d[|d| - 2..];
    }
  }

  /** `('0' + str(n))[-2:]` is two digits that read as `n` modulo 100. */
  lemma PaddedValue(n: nat)
    ensures |LastChars("0" + NatToDecimal(n), 2)| == 2
    ensures AllDigits(LastChars("0" + NatToDecimal(n), 2))
    ensures ParseDecimal(LastChars("0" + NatToDecimal(n), 2)) == n % 100
  {
    var hi := DigitChar((n / 10) % 10);
    var lo := DigitChar(n % 10);
    PaddedDigits(n);
    ParseTwoDigits(hi, lo);
    DigitRoundTrip((n / 10) % 10);
    DigitRoundTrip(n % 10);
    LastTwoDigits(n);
  }

  /** The month part of the file name for loop index `i`:
      `('0' + str(i + 1))[-2:]`. Always two digits; for the loop's indices
      0..11 it reads as `i + 1`, giving "01" to "12". */
  function MonthString(i: nat): (month: string)
    ensures |month| == 2 && AllDigits(month)
    ensures ParseDecimal(month) == (i + 1) % 100
  {
    var month := LastChars("0" + NatToDecimal(i + 1), 2);
    PaddedValue(i + 1);
    month
  }

  /** Distinct indices below 100 have distinct successors modulo 100. */
  lemma SuccessorModHundred(i: nat, j: nat)
    requires i < 100 && j < 100 && i != j
    ensures (i + 1) % 100 != (j + 1) % 100
  {
    assert i < 99 ==> (i + 1) % 100 == i + 1;
    assert j < 99 ==> (j + 1) % 100 == j + 1;
    assert i == 99 ==> (i + 1) % 100 == 0;
    assert j == 99 ==> (j + 1) % 100 == 0;
  }

  /** For the loop's indices 0..11 the month reads as `i + 1`. */
  lemma MonthStringInRange(i: nat)
    requires i < MonthsPerYear
    ensures ParseDecimal(MonthString(i)) == i + 1
  {
    assert (i + 1) % 100 == i + 1;
  }

  /** Two loop indices below 100 give different month strings. */
  lemma MonthStringInjective(i: nat, j: nat)
    requires i < 100 && j < 100 && i != j
    ensures MonthString(i) != MonthString(j)
  {
    var mi := MonthString(i);
    var mj := MonthString(j);
    SuccessorModHundred(i, j);
    assert ParseDecimal(mi) != ParseDecimal(mj);
  }

  /** `f"{service}_tripdata_{year}-{month}.csv.gz"` without its suffix. */
  function ArchiveStem(service: string, year: string, i: nat): string
  {
    service + "_tripdata_" + year + "-" + MonthString(i)
  }

  /** The stem holds no '.' when the service and the year hold none. */
  lemma ArchiveStemNoDot(service: string, year: string, i: nat)
    requires NoDot(service) && NoDot(year)
    ensures NoDot(ArchiveStem(service, year, i))
  {
    var m := MonthString(i);
    assert forall k :: 0 <= k < |m| ==> m[k] != '.' by {
      forall k | 0 <= k < |m| ensures m[k] != '.' {
        assert IsDigit(m[k]);
      }
    }
    assert '.' !in "_tripdata_" && '.' !in "-";
  }

  /** The CSV archive name for loop index `i`. */
  function CsvFileName(service: string, year: string, i: nat): string
  {
    ArchiveStem(service, year, i) + CsvSuffix
  }

  /** `file_name.replace('.csv.gz', '.parquet')`. */
  function ParquetFileName(fileName: string): string
  {
    ReplaceAll(fileName, CsvSuffix, ParquetSuffix)
  }

  /** When the archive name holds ".csv.gz" only as its suffix, the rewrite
      swaps just that suffix for ".parquet". */
  lemma ParquetFileNameSuffix(stem: string)
    requires forall k :: 0 <= k < |stem| ==> !OccursAt(stem + CsvSuffix, k, CsvSuffix)
    ensures ParquetFileName(stem + CsvSuffix) == stem + ParquetSuffix
  {
    ReplaceSuffixOnly(stem, CsvSuffix, ParquetSuffix);
  }

  /** A stem without '.' cannot hold ".csv.gz" anywhere but at its suffix. */
  lemma NoDotStemOccurrence(stem: string)
    requires NoDot(stem)
    ensures forall k :: 0 <= k < |stem| ==> !OccursAt(stem + CsvSuffix, k, CsvSuffix)
  {
    forall k | 0 <= k < |stem| ensures !OccursAt(stem + CsvSuffix, k, CsvSuffix) {
      var s := stem + CsvSuffix;
      assert s[k] == stem[k] && stem[k] != '.';
      assert k + |CsvSuffix| <= |s| ==> s[k..k + |CsvSuffix|][0] == s[k];
    }
  }

  /** The rewrite in the script's own setting: for dot-free services and
      years the parquet name is the archive stem followed by ".parquet". */
  lemma ParquetNameExact(service: string, year: string, i: nat)
    requires NoDot(service) && NoDot(year)
    ensures ParquetFileName(CsvFileName(service, year, i))
      == service + "_tripdata_" + year + "-" + MonthString(i) + ".parquet"
  {
    var stem := ArchiveStem(service, year, i);
    ArchiveStemNoDot(service, year, i);
    NoDotStemOccurrence(stem);
    ParquetFileNameSuffix(stem);
  }

  /** `f"{init_url}{service}/{file_name}"`. */
  function RequestUrl(service: string, fileName: string): string
  {
    InitUrl + service + "/" + fileName
  }

  /** `f"{data_dir}/{service}/{file_name}"`, the local path of both the
      downloaded archive and the parquet file. */
  function LocalPath(service: string, fileName: string): string
  {
    DataDir + "/" + service + "/" + fileName
  }

  /** `f"{service}/{file_name}"`, the object name of the upload. */
  function ObjectName(service: string, fileName: string): string
  {
    service + "/" + fileName
  }

  /** The strings one iteration of the `web_to_gcs` loop builds. */
  datatype MonthTransfer = MonthTransfer(
    month: string,
    csvName: string,
    requestUrl: string,
    csvPath: string,
    parquetName: string,
    parquetPath: string,
    objectName: string)

  /** One iteration of the `web_to_gcs` loop, as a function of
      `(service, year, i)`. */
  function PlanMonth(service: string, year: string, i: nat): MonthTransfer
  {
    var csvName := CsvFileName(service, year, i);
    var parquetName := ParquetFileName(csvName);
    MonthTransfer(MonthString(i), csvName, RequestUrl(service, csvName), LocalPath(service, csvName),
                  parquetName, LocalPath(service, parquetName), ObjectName(service, parquetName))
  }

  /** The month an iteration handles is the padded month of its index. */
  lemma PlanMonthMonth(service: string, year: string, i: nat)
    ensures PlanMonth(service, year, i).month == MonthString(i)
  {
  }

  /** The strings of one iteration: a two-digit month reading as `i + 1`,
      the archive name, the download URL, the two local paths, and the
      object name; for dot-free services and years the parquet name is the
      archive name with ".csv.gz" swapped for ".parquet". */
  lemma PlanMonthStrings(service: string, year: string, i: nat)
    ensures var t := PlanMonth(service, year, i);
      && |t.month| == 2 && AllDigits(t.month)
      && (i < MonthsPerYear ==> ParseDecimal(t.month) == i + 1)
      && t.csvName == service + "_tripdata_" + year + "-" + t.month + ".csv.gz"
      && t.requestUrl == InitUrl + service + "/" + t.csvName
      && t.csvPath == DataDir + "/" + service + "/" + t.csvName
      && t.parquetPath == DataDir + "/" + service + "/" + t.parquetName
      && t.objectName == service + "/" + t.parquetName
      && (NoDot(service) && NoDot(year) ==>
            t.parquetName == service + "_tripdata_" + year + "-" + t.month + ".parquet")
  {
    if i < MonthsPerYear {
      MonthStringInRange(i);
    }
    if NoDot(service) && NoDot(year) {
      ParquetNameExact(service, year, i);
    }
  }

  /** Strings that differ only in an equally long middle part differ. */
  lemma MiddleDiffers(a: string, p: string, x: string, y: string, q: string)
    requires |x| == |y| && x != y
    ensures a + ((p + x) + q) != a + ((p + y) + q)
  {
    assert (a + ((p + x) + q))[|a| + |p|..|a| + |p| + |x|] == x;
    assert (a + ((p + y) + q))[|a| + |p|..|a| + |p| + |y|] == y;
  }

  /** For dot-free services and years the object name is the service, '/',
      the archive stem, and ".parquet". */
  lemma ObjectNameShape(service: string, year: string, i: nat)
    requires NoDot(service) && NoDot(year)
    ensures PlanMonth(service, year, i).objectName
      == service + "/" + (service + "_tripdata_" + year + "-" + MonthString(i) + ".parquet")
  {
    ParquetNameExact(service, year, i);
  }

  /** Within one (service, year), different months upload to different
      objects. */
  lemma ObjectNamesDistinct(service: string, year: string, i: nat, j: nat)
    requires NoDot(service) && NoDot(year)
    requires i < 100 && j < 100 && i != j
    ensures PlanMonth(service, year, i).objectName != PlanMonth(service, year, j).objectName
  {
    ObjectNameShape(service, year, i);
    ObjectNameShape(service, year, j);
    MonthStringInjective(i, j);
    MiddleDiffers(service + "/", service + "_tripdata_" + year + "-", MonthString(i), MonthString(j), ".parquet");
  }

  /** Any sequence of month plans for indices 0..n-1, n <= 100, has
      pairwise-distinct object names. */
  lemma PlansDistinct(service: string, year: string, plans: seq<MonthTransfer>)
    requires NoDot(service) && NoDot(year) && |plans| <= 100
    requires forall k :: 0 <= k < |plans| ==> plans[k] == PlanMonth(service, year, k)
    ensures forall j, k :: 0 <= j < k < |plans| ==> plans[j].objectName != plans[k].objectName
  {
    forall j, k | 0 <= j < k < |plans|
      ensures plans[j].objectName != plans[k].objectName
    {
      ObjectNamesDistinct(service, year, j, k);
    }
  }

  /** `web_to_gcs(year, service)`: the twelve iterations in order, the
      k-th handling month k + 1, so the month strings run "01" to "12". */
  function WebToGcs(year: string, service: string): (transfers: seq<MonthTransfer>)
    ensures |transfers| == MonthsPerYear
    ensures forall k :: 0 <= k < |transfers| ==> transfers[k] == PlanMonth(service, year, k)
    ensures forall k :: 0 <= k < |transfers| ==>
      AllDigits(transfers[k].month) && ParseDecimal(transfers[k].month) == k + 1
  {
    var transfers := seq(MonthsPerYear, k requires 0 <= k < MonthsPerYear => PlanMonth(service, year, k));
    assert forall k :: 0 <= k < |transfers| ==>
      AllDigits(transfers[k].month) && ParseDecimal(transfers[k].month) == k + 1 by {
      forall k | 0 <= k < |transfers|
        ensures AllDigits(transfers[k].month) && ParseDecimal(transfers[k].month) == k + 1
      {
        PlanMonthMonth(service, year, k);
        MonthStringInRange(k);
      }
    }
    transfers
  }

  /** The twelve iterations of `web_to_gcs` upload to twelve different
      objects. */
  lemma WebToGcsDistinctObjects(year: string, service: string)
    requires NoDot(service) && NoDot(year)
    ensures forall j, k :: 0 <= j < k < |WebToGcs(year, service)| ==>
      WebToGcs(year, service)[j].objectName != WebToGcs(year, service)[k].objectName
  {
    PlansDistinct(service, year, WebToGcs(year, service));
  }

  /** The (year, service) pairs the script's entry point runs. */
  const DownloadRuns: seq<(string, string)> := [
    ("2019", "green"), ("2020", "green"), ("2019", "yellow"), ("2020", "yellow"), ("2019", "fhv")
  ]

  /** Every run of the entry point uploads its twelve months to twelve
      different objects. */
  lemma DownloadRunsDistinct(r: nat, i: nat, j: nat)
    requires r < |DownloadRuns|
    requires i < MonthsPerYear && j < MonthsPerYear && i != j
    ensures PlanMonth(DownloadRuns[r].1, DownloadRuns[r].0, i).objectName
         != PlanMonth(DownloadRuns[r].1, DownloadRuns[r].0, j).objectName
  {
    var (year, service) := DownloadRuns[r];
    assert NoDot(year) && NoDot(service);
    ObjectNamesDistinct(service, year, i, j);
  }
}
