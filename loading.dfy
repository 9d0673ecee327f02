/** Reading the upload into a table: the reader is chosen by the file's
    extension, and every failure (including an unsupported extension) becomes
    an HTTP 500 "Error reading file" error (load_data_from_file). */
module Loading {
  import opened Common
  import opened Tables

  /** The four pandas readers the loader can call. */
  datatype Format = Csv | Excel | JsonRecords | Parquet

  /** An HTTPException: status code and detail text. */
  datatype HttpError = HttpError(status: nat, detail: string)

  /** Python's str() of an HTTPException, "<status>: <detail>". */
  function ExceptionText(e: HttpError): string
  {
    Decimal(e.status) + ": " + e.detail
  }

  // ---------------------------------------------------------------------------
  // Python's str.split(sep) and its inverse, sep.join(parts) (Common.Join)

  /** s.split(sep): the maximal sep-free pieces between separators; never empty,
      and joining them back with sep gives s. */
  function Split(s: string, sep: char): (parts: seq<string>)
    ensures |parts| >= 1
    ensures forall i :: 0 <= i < |parts| ==> sep !in parts[i]
    ensures Join(parts, [sep]) == s
  {
    if s == [] then [""]
    else
      var rest := Split(s[1..], sep);
      if s[0] == sep then
        [""] + rest
      else
        assert Join([[s[0]] + rest[0]] + rest[1..], [sep]) == [s[0]] + Join(rest, [sep]) by {
          if |rest| > 1 { assert ([[s[0]] + rest[0]] + rest[1..])[1..] == rest[1..]; }
        }
        [[s[0]] + rest[0]] + rest[1..]
  }

  /** Splitting a join of sep-free pieces gives the pieces back. */
  lemma {:induction false} SplitJoin(parts: seq<string>, sep: char)
    requires |parts| >= 1
    requires forall i :: 0 <= i < |parts| ==> sep !in parts[i]
    ensures Split(Join(parts, [sep]), sep) == parts
    decreases |Join(parts, [sep])|
  {
    var s := Join(parts, [sep]);
    if parts[0] == [] {
      if |parts| > 1 {
        assert s == [sep] + Join(parts[1..], [sep]);
        assert s[1..] == Join(parts[1..], [sep]);
        SplitJoin(parts[1..], sep);
      }
    } else {
      var c := parts[0][0];
      var tail := [parts[0][1..]] + parts[1..];
      assert c != sep by { assert parts[0][0] in parts[0]; }
      assert Join(tail, [sep]) == s[1..] by {
        if |parts| > 1 { assert tail[1..] == parts[1..]; }
      }
      assert forall i :: 0 <= i < |tail| ==> sep !in tail[i] by {
        forall i | 0 <= i < |tail| ensures sep !in tail[i] {
          if i == 0 {
            assert forall x :: x in parts[0][1..] ==> x in parts[0];
          } else {
            assert tail[i] == parts[i];
          }
        }
      }
      SplitJoin(tail, sep);
      assert [c] + parts[0][1..] == parts[0];
    }
  }

  lemma {:induction false} JoinAppend(parts: seq<string>, last: string, sep: char)
    requires |parts| >= 1
    ensures Join(parts + [last], [sep]) == Join(parts, [sep]) + [sep] + last
  {
    if |parts| > 1 {
      assert (parts + [last])[1..] == parts[1..] + [last];
      JoinAppend(parts[1..], last, sep);
    }
  }

  // ---------------------------------------------------------------------------
  // Extension and reader choice

  /** file.filename.split(".")[-1].lower() */
  function Extension(filename: string): string
  {
    var parts := Split(filename, '.');
    Lower(parts[|parts| - 1])
  }

  /** A dotted name's extension is its lower-cased text after the last dot. */
  lemma ExtensionOfDottedName(base: string, ext: string)
    requires '.' !in ext
    ensures Extension(base + "." + ext) == Lower(ext)
  {
    var parts := Split(base, '.');
    JoinAppend(parts, ext, '.');
    SplitJoin(parts + [ext], '.');
  }

  /** A name without a dot is its own extension, lower-cased. */
  lemma ExtensionOfUndottedName(name: string)
    requires '.' !in name
    ensures Extension(name) == Lower(name)
  {
    SplitJoin([name], '.');
  }

  /** The reader for an extension, if it is one of the accepted ones. */
  function FormatFor(ext: string): Option<Format>
  {
    if ext == "csv" then Some(Csv)
    else if ext in ["xls", "xlsx"] then Some(Excel)
    else if ext == "json" then Some(JsonRecords)
    else if ext == "parquet" then Some(Parquet)
    else None
  }

  const UnsupportedFormat := HttpError(400, "Unsupported file format")

  const ReadingErrorPrefix := "Error reading file: "

  /** load_data_from_file. `read` stands for the pandas reader of a format: it
      yields a table or fails with the text of the exception it raised. */
  function LoadData(filename: string, contents: seq<byte>,
                    read: (Format, seq<byte>) -> Result<Table, string>): (r: Result<Table, HttpError>)
    ensures r.Err? ==> r.error.status == 500 && ReadingErrorPrefix <= r.error.detail
    ensures r.Ok? <==> FormatFor(Extension(filename)).Some? &&
                       read(FormatFor(Extension(filename)).value, contents).Ok?
    ensures r.Ok? ==> r.value == read(FormatFor(Extension(filename)).value, contents).value
  {
    var attempt := match FormatFor(Extension(filename))
      case None => Err(ExceptionText(UnsupportedFormat))
      case Some(format) => read(format, contents);
    match attempt
    case Ok(t) => Ok(t)
    case Err(message) => Err(HttpError(500, ReadingErrorPrefix + message))
  }

  /** The text of the unsupported-extension 400, as str() renders the exception. */
  lemma UnsupportedText()
    ensures ExceptionText(UnsupportedFormat) == "400: " + "Unsupported file format"
  {
    StatusText400();
    assert "400" + ": " == "400: ";
  }

  lemma StatusText400()
    ensures Decimal(400) == "400"
  {
    assert DigitChar(4) == '4' && DigitChar(0) == '0';
    assert Decimal(40) == Decimal(4) + [DigitChar(0)];
  }

  /** Any name whose extension is not accepted fails with status 500, whose
      detail carries the text of the 400 raised inside the handler. */
  lemma UnsupportedExtensionIs500(filename: string, contents: seq<byte>,
                                  read: (Format, seq<byte>) -> Result<Table, string>)
    requires Extension(filename) !in ["csv", "xls", "xlsx", "json", "parquet"]
    ensures LoadData(filename, contents, read)
         == Err(HttpError(500, "Error reading file: " + "400: " + "Unsupported file format"))
  {
    assert FormatFor(Extension(filename)) == None;
    UnsupportedText();
    var text := ExceptionText(UnsupportedFormat);
    assert ReadingErrorPrefix + text == ReadingErrorPrefix + "400: " + "Unsupported file format";
  }

  /** The outcome for "<base>.<ext>" depends on ext alone, up to ASCII case:
      neither the rest of the name nor the case of the extension matters. */
  lemma LoadByExtension(base: string, base': string, ext: string, contents: seq<byte>,
                        read: (Format, seq<byte>) -> Result<Table, string>)
    requires '.' !in ext
    ensures LoadData(base + "." + ext, contents, read)
         == LoadData(base' + "." + Lower(ext), contents, read)
  {
    ExtensionOfDottedName(base, ext);
    assert '.' !in Lower(ext) by {
      forall i | 0 <= i < |ext| ensures Lower(ext)[i] != '.' {
        assert ext[i] != '.';
      }
    }
    ExtensionOfDottedName(base', Lower(ext));
    assert Lower(Lower(ext)) == Lower(ext);
  }
}
