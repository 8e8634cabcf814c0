/** `DataProcessor.load_data`: choose a reader from the file name's last
    extension, read the table (retrying CSV as Latin-1 when it is not
    UTF-8), clean it, and wrap every failure as "Error loading file: …". */
module Loading {
  import opened Frame
  import opened Text
  import opened Cleaning

  /** The text after the last '.', or the whole name when there is none
      (`name.split('.')[-1]`). */
  function LastSegment(name: string): (r: string)
    ensures '.' !in r
    ensures |r| <= |name| && r == name[|name| - |r|..]
    ensures |r| < |name| ==> name[|name| - |r| - 1] == '.'
  {
    if name == [] then []
    else if name[|name| - 1] == '.' then []
    else
      var init := name[..|name| - 1];
      var r := LastSegment(init);
      assert init[|init| - |r|..] + [name[|name| - 1]] == name[|name| - |r| - 1..];
      r + [name[|name| - 1]]
  }

  /** `file_extension`. */
  function Extension(name: string): (r: string)
    ensures '.' !in r && forall i :: 0 <= i < |r| ==> !IsUpper(r[i])
  {
    var seg := LastSegment(name);
    assert forall i :: 0 <= i < |seg| ==> seg[i] != '.' && !IsCased(seg[i]) ==> ToLower(seg[i]) == seg[i];
    Lower(seg)
  }

  datatype Reader = CsvReader | ExcelReader

  /** The dispatch: "csv" reads CSV, "xlsx" and "xls" read Excel, anything
      else is refused. */
  function ReaderFor(ext: string): (r: Result<Reader, string>)
    ensures r == Ok(CsvReader) <==> ext == "csv"
    ensures r == Ok(ExcelReader) <==> ext == "xlsx" || ext == "xls"
    ensures r.Err? <==> ext !in {"csv", "xlsx", "xls"}
    ensures r.Err? ==> r.error == UnsupportedFormat + ext
  {
    if ext == "csv" then Ok(CsvReader)
    else if ext == "xlsx" || ext == "xls" then Ok(ExcelReader)
    else Err(UnsupportedFormat + ext)
  }

  datatype Encoding = Utf8 | Latin1

  /** What a pandas reader returns or raises. */
  datatype Decoded = Parsed(table: Table) | UnicodeFailure(message: string) | ParseFailure(message: string)

  /** The uploaded file as the readers see it: the CSV reader under each
      encoding, and the Excel reader. The parsers are not modelled. */
  datatype Upload = Upload(name: string, asCsv: Encoding -> Decoded, asExcel: Decoded)

  /** pandas readers produce unique column names and cells of the column's dtype. */
  predicate ReadersWellFormed(up: Upload) {
    && (forall e :: up.asCsv(e).Parsed? ==> WellFormed(up.asCsv(e).table))
    && (up.asExcel.Parsed? ==> WellFormed(up.asExcel.table))
  }

  const LoadFailed := "Error loading file: "

  const UnsupportedFormat := "Unsupported file format: "

  /** `pd.read_csv` with UTF-8, retried with Latin-1 only on a decoding error. */
  function ReadCsv(up: Upload): (d: Decoded)
    ensures up.asCsv(Utf8).UnicodeFailure? ==> d == up.asCsv(Latin1)
    ensures !up.asCsv(Utf8).UnicodeFailure? ==> d == up.asCsv(Utf8)
  {
    match up.asCsv(Utf8)
    case UnicodeFailure(_) => up.asCsv(Latin1)
    case other => other
  }

  /** Everything before `_clean_data`: the dispatch and the read. */
  function ReadFile(up: Upload): (r: Result<Table, string>)
    requires ReadersWellFormed(up)
    ensures r.Ok? ==> WellFormed(r.value)
    ensures ReaderFor(Extension(up.name)).Err? ==> r == Err(ReaderFor(Extension(up.name)).error)
    ensures ReaderFor(Extension(up.name)).Ok? ==>
              var d := if ReaderFor(Extension(up.name)).value == CsvReader then ReadCsv(up) else up.asExcel;
              && (r.Ok? <==> d.Parsed?)
              && (r.Ok? ==> r.value == d.table)
              && (r.Err? ==> r.error == d.message)
  {
    match ReaderFor(Extension(up.name))
    case Err(msg) => Err(msg)
    case Ok(reader) =>
      var d := if reader == CsvReader then ReadCsv(up) else up.asExcel;
      match d
      case Parsed(t) => Ok(t)
      case UnicodeFailure(msg) => Err(msg)
      case ParseFailure(msg) => Err(msg)
  }

  /** `load_data`: the cleaned table, or the failure prefixed with "Error
      loading file: ". An unsupported extension is refused before any
      reader runs. */
  method LoadData(up: Upload, co: Coercions) returns (r: Result<Table, string>)
    requires ReadersWellFormed(up)
    ensures r.Ok? <==> ReadFile(up).Ok?
    ensures r.Ok? ==> CleanedFrom(ReadFile(up).value, co, r.value)
    ensures r.Err? ==> r.error == LoadFailed + ReadFile(up).error
    ensures Extension(up.name) !in {"csv", "xlsx", "xls"} ==> r == Err(LoadFailed + UnsupportedFormat + Extension(up.name))
  {
    match ReadFile(up) {
      case Err(msg) =>
        r := Err(LoadFailed + msg);
        if Extension(up.name) !in {"csv", "xlsx", "xls"} {
          UnsupportedRead(up);
          PrefixedTwice(LoadFailed, UnsupportedFormat, Extension(up.name));
        }
      case Ok(data) =>
        var cleaned := CleanData(data, co);
        r := Ok(cleaned);
    }
  }

  /** An unsupported extension is refused with its own message before any reader runs. */
  lemma UnsupportedRead(up: Upload)
    requires ReadersWellFormed(up) && Extension(up.name) !in {"csv", "xlsx", "xls"}
    ensures ReadFile(up) == Err(UnsupportedFormat + Extension(up.name))
  {
  }

  lemma PrefixedTwice(a: string, b: string, c: string)
    ensures a + (b + c) == a + b + c
  {
  }

  lemma {:induction false} LastSegmentAfterDot(stem: string, ext: string)
    requires '.' !in ext
    ensures LastSegment(stem + "." + ext) == ext
  {
    var name := stem + "." + ext;
    if ext == [] {
      assert name[|name| - 1] == '.';
    } else {
      var n := |ext| - 1;
      assert '.' !in ext[..n] by {
        forall i | 0 <= i < n ensures ext[..n][i] != '.' {
          assert ext[i] in ext;
        }
      }
      LastSegmentAfterDot(stem, ext[..n]);
      assert name[..|name| - 1] == stem + "." + ext[..n];
      assert name[|name| - 1] == ext[n] && ext[n] in ext;
      assert LastSegment(name) == LastSegment(name[..|name| - 1]) + [name[|name| - 1]];
      assert ext[..n] + [ext[n]] == ext;
    }
  }

  /** The extension is whatever follows the last dot, lower-cased: a name
      ending in ".CSV" is read as CSV, and "data.csv.xlsx" as Excel. */
  lemma ExtensionAfterLastDot(stem: string, ext: string)
    requires '.' !in ext
    ensures Extension(stem + "." + ext) == Lower(ext)
  {
    LastSegmentAfterDot(stem, ext);
  }

  /** A name without a dot is its own extension: a file called "CSV" is
      read as CSV, one called "data" is refused. */
  lemma NameWithoutDot(name: string)
    requires '.' !in name
    ensures Extension(name) == Lower(name)
  {
    assert forall k :: 0 <= k < |name| ==> name[k] != '.';
    assert name[0..] == name;
  }

  /** Upper-case extensions are accepted like lower-case ones. */
  lemma UpperCaseExtensions(stem: string)
    ensures Extension(stem + ".CSV") == "csv"
    ensures Extension(stem + ".XLSX") == "xlsx"
    ensures Extension(stem + ".Xls") == "xls"
  {
    ExtensionAfterLastDot(stem, "CSV");
    ExtensionAfterLastDot(stem, "XLSX");
    ExtensionAfterLastDot(stem, "Xls");
    assert stem + ".CSV" == stem + "." + "CSV";
    assert stem + ".XLSX" == stem + "." + "XLSX";
    assert stem + ".Xls" == stem + "." + "Xls";
  }
}
