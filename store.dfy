/**
 * The data directory as the server uses it through `fs`: year directories,
 * month directories inside them, and CSV files inside the month directories.
 * A file is the list of lines written to it, each without its newline.
 */
module Store {
  import opened Layout

  /** `fs.existsSync(filepath) ? keep : writeFileSync(header)`, then
      `appendFileSync(line)`, on a snapshot of the files. */
  function Appended(files: map<FilePath, seq<string>>, p: FilePath, header: string, line: string): (r: map<FilePath, seq<string>>)
    ensures r.Keys == files.Keys + {p}
    ensures forall q :: q in files && q != p ==> r[q] == files[q]
    ensures p in files ==> r[p] == files[p] + [line]
    ensures p !in files ==> r[p] == [header, line]
  {
    files[p := (if p in files then files[p] else [header]) + [line]]
  }

  /** Appending rows one after another, each with the same header. */
  function AppendedAll(files: map<FilePath, seq<string>>, p: FilePath, header: string, rows: seq<string>): map<FilePath, seq<string>>
    decreases |rows|
  {
    if |rows| == 0 then files
    else AppendedAll(Appended(files, p, header, rows[0]), p, header, rows[1..])
  }

  /** A file written only by appends starts with exactly one header: the
      header goes in when the file is created and never again, so the file is
      that header followed by every row in the order appended. */
  lemma {:induction false} AppendedAllLines(files: map<FilePath, seq<string>>, p: FilePath, header: string, rows: seq<string>)
    requires p !in files && |rows| >= 1
    ensures var r := AppendedAll(files, p, header, rows);
      p in r && r[p] == [header] + rows
  {
    var f1 := Appended(files, p, header, rows[0]);
    AppendedAllExtends(f1, p, header, rows[1..]);
    assert [header] + rows == [header, rows[0]] + rows[1..];
  }

  lemma {:induction false} AppendedAllExtends(files: map<FilePath, seq<string>>, p: FilePath, header: string, rows: seq<string>)
    requires p in files
    ensures var r := AppendedAll(files, p, header, rows);
      p in r && r[p] == files[p] + rows
    decreases |rows|
  {
    if |rows| > 0 {
      var f1 := Appended(files, p, header, rows[0]);
      AppendedAllExtends(f1, p, header, rows[1..]);
      assert files[p] + [rows[0]] + rows[1..] == files[p] + rows;
    }
  }

  class Store {
    var years: set<string>
    var months: set<(string, string)>
    var files: map<FilePath, seq<string>>

    /** Every file lies in an existing month directory and holds at least one line. */
    ghost predicate Valid()
      reads this
    {
      && (forall ym :: ym in months ==> ym.0 in years)
      && (forall p :: p in files ==> (p.year, p.month) in months && |files[p]| >= 1)
    }

    /** A first start: the `data` directory is created, with nothing in it. */
    constructor ()
      ensures Valid()
      ensures years == {} && months == {} && files == map[]
    {
      years, months, files := {}, {}, map[];
    }

    /** `createDirectoryStructure`: make `<year>` and then `<year>/<month>` if missing. */
    method CreateDirectoryStructure(year: string, month: string)
      requires Valid()
      modifies this
      ensures Valid()
      ensures years == old(years) + {year}
      ensures months == old(months) + {(year, month)}
      ensures files == old(files)
    {
      if year !in years {
        years := years + {year};
      }
      if (year, month) !in months {
        months := months + {(year, month)};
      }
    }

    /** Write `header` if the file does not exist yet, then append `line`. */
    method Append(p: FilePath, header: string, line: string)
      requires Valid() && (p.year, p.month) in months
      modifies this
      ensures Valid()
      ensures files == Appended(old(files), p, header, line)
      ensures years == old(years) && months == old(months)
    {
      if p !in files {
        files := files[p := [header]];
      }
      files := files[p := files[p] + [line]];
    }
  }
}
