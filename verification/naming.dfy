/**
 The output file name `area_weighted_shapefile_rasterstats` writes to:
 `{output_dir}/{stem}_{token}_{operator}` followed by `.csv` or `.nc`, where
 the stem is the shapefile's file name up to its first `.` and the token is
 the netcdf's file name up to its first `_`.
 */
module Naming {
  import opened Text

  datatype Option<T> = None | Some(value: T)

  /** The two output formats, chosen by the `output_csv` flag. */
  datatype Format = Csv | NetCdf
  {
    function Extension(): string
    {
      match this
      case Csv => ".csv"
      case NetCdf => ".nc"
    }
  }

  /** `Path(path).name`: the last `/`-separated component. */
  function FileName(path: string): string
  {
    LastField(path, '/')
  }

  /** `Path(shapefile).name.split('.')[0]`. */
  function Stem(shapefile: string): (stem: string)
    ensures '.' !in stem && '/' !in stem
    ensures stem <= FileName(shapefile)
    ensures stem == FileName(shapefile) || FileName(shapefile)[|stem|] == '.'
  {
    FirstField(FileName(shapefile), '.')
  }

  /** `netcdf.split('/')[-1].split('_')[0]`. */
  function Token(netcdf: string): (token: string)
    ensures '_' !in token && '/' !in token
    ensures token <= FileName(netcdf)
    ensures token == FileName(netcdf) || FileName(netcdf)[|token|] == '_'
  {
    FirstField(LastField(netcdf, '/'), '_')
  }

  /** The stem of `dir/name.ext` is `name` when `name` holds no `.`. */
  lemma {:induction false} StemOf(dir: string, name: string, ext: string)
    requires '/' !in name && '/' !in ext && '.' !in name
    ensures Stem(dir + "/" + name + "." + ext) == name
  {
    var file := name + "." + ext;
    Assoc(dir, "/", file);
    Assoc(dir + "/", name + ".", ext);
    Assoc(dir + "/", name, ".");
    assert dir + "/" + name + "." + ext == (dir + "/") + file;
    assert '/' !in file;
    LastFieldUnique(dir + "/" + name + "." + ext, '/', file);
    FirstFieldUnique(file, '.', name);
  }

  /** The token of `dir/token_rest` is `token` when `token` holds no `_`. */
  lemma {:induction false} TokenOf(dir: string, token: string, rest: string)
    requires '/' !in token && '/' !in rest && '_' !in token
    ensures Token(dir + "/" + token + "_" + rest) == token
  {
    var file := token + "_" + rest;
    Assoc(dir, "/", file);
    Assoc(dir + "/", token + "_", rest);
    Assoc(dir + "/", token, "_");
    assert dir + "/" + token + "_" + rest == (dir + "/") + file;
    assert '/' !in file;
    LastFieldUnique(dir + "/" + token + "_" + rest, '/', file);
    FirstFieldUnique(file, '_', token);
  }

  /** The stem is the field `Path(shapefile).name.split('.')[0]` selects,
      with the file name taken as the last `/`-separated field. */
  lemma {:induction false} StemIsSplitField(shapefile: string)
    ensures var parts := Split(shapefile, '/');
      Stem(shapefile) == Split(parts[|parts| - 1], '.')[0]
  {
    SplitLast(shapefile, '/');
    SplitFirst(FileName(shapefile), '.');
  }

  /** The token is the field `netcdf.split('/')[-1].split('_')[0]` selects. */
  lemma {:induction false} TokenIsSplitField(netcdf: string)
    ensures var parts := Split(netcdf, '/');
      Token(netcdf) == Split(parts[|parts| - 1], '_')[0]
  {
    SplitLast(netcdf, '/');
    SplitFirst(FileName(netcdf), '_');
  }

  /** The name template `{output_dir}/{stem}_{token}_{operator}` followed
      by the format's extension. */
  function NameOf(outDir: string, stem: string, token: string, operator: string,
                  format: Format): string
  {
    outDir + "/" + stem + "_" + token + "_" + operator + format.Extension()
  }

  /** The name of the file one unit of work writes. */
  function OutputName(outDir: string, shapefile: string, netcdf: string, operator: string,
                      format: Format): string
  {
    NameOf(outDir, Stem(shapefile), Token(netcdf), operator, format)
  }

  /** The CSV name and the NetCDF name of one unit of work share everything
      but the extension. */
  lemma {:induction false} CsvAndNetCdfNamesDifferOnlyInExtension(outDir: string, stem: string,
                                                                  token: string, operator: string)
    ensures var csv := NameOf(outDir, stem, token, operator, Csv);
      var nc := NameOf(outDir, stem, token, operator, NetCdf);
      |csv| >= 4 && |nc| >= 3 && csv[..|csv| - 4] == nc[..|nc| - 3] &&
      csv[|csv| - 4..] == ".csv" && nc[|nc| - 3..] == ".nc"
  {
    var base := outDir + "/" + stem + "_" + token + "_" + operator;
    assert (base + ".csv")[..|base|] == base;
    assert (base + ".nc")[..|base|] == base;
  }

  /** Recovers the stem and the token from an output name, given the output
      directory, the operator and the format. The token holds no `_`, so the
      last `_` before the operator separates it from the stem. */
  function ParseOutputName(name: string, outDir: string, operator: string, format: Format)
    : Option<(string, string)>
  {
    var prefix := outDir + "/";
    var suffix := "_" + operator + format.Extension();
    if |prefix| + |suffix| <= |name| && prefix <= name && name[|name| - |suffix|..] == suffix then
      var middle := name[|prefix|..|name| - |suffix|];
      var token := LastField(middle, '_');
      if token == middle then None
      else Some((middle[..|middle| - |token| - 1], token))
    else
      None
  }

  /** Parsing a name built from the template gives back its stem and token,
      as long as the token holds no `_` (which Token guarantees). */
  lemma {:induction false} ParseOutputNameInverts(outDir: string, stem: string, token: string,
                                                  operator: string, format: Format)
    requires '_' !in token
    ensures ParseOutputName(NameOf(outDir, stem, token, operator, format), outDir, operator, format)
         == Some((stem, token))
  {
    var prefix, ext := outDir + "/", format.Extension();
    Assoc(prefix + stem, "_", token);
    Assoc(prefix, stem, "_" + token);
    Assoc(stem, "_", token);
    var middle := stem + "_" + token;
    assert prefix + stem + "_" + token == prefix + middle;
    Assoc(prefix + middle + "_", operator, ext);
    Assoc(prefix + middle, "_", operator + ext);
    Assoc("_", operator, ext);
    assert NameOf(outDir, stem, token, operator, format) == prefix + middle + ("_" + operator + ext);
    ParseJoined(outDir, stem, token, operator, format);
  }

  /** ParseOutputName splits a name assembled from its parts back into the
      stem and the token, as long as the token holds no `_`. */
  lemma {:induction false} ParseJoined(outDir: string, stem: string, token: string, operator: string, format: Format)
    requires '_' !in token
    ensures ParseOutputName((outDir + "/") + (stem + "_" + token) + ("_" + operator + format.Extension()),
                            outDir, operator, format)
         == Some((stem, token))
  {
    var prefix := outDir + "/";
    var middle := stem + "_" + token;
    var suffix := "_" + operator + format.Extension();
    var name := prefix + middle + suffix;
    Pieces(prefix, middle, suffix);
    LastUnderscore(stem, token);
  }

  lemma {:induction false} Assoc(a: string, b: string, c: string)
    ensures a + b + c == a + (b + c)
  {
  }

  /** The pieces of a three-part concatenation can be cut out again. */
  lemma {:induction false} Pieces(prefix: string, middle: string, suffix: string)
    ensures var name := prefix + middle + suffix;
      prefix <= name && name[|name| - |suffix|..] == suffix &&
      name[|prefix|..|name| - |suffix|] == middle
  {
    var name := prefix + middle + suffix;
    assert name[|prefix|..|name| - |suffix|] == middle;
  }

  /** A text without `_` after the last `_` is what LastField finds. */
  lemma {:induction false} LastUnderscore(stem: string, token: string)
    requires '_' !in token
    ensures var middle := stem + "_" + token;
      LastField(middle, '_') == token && middle[..|middle| - |token| - 1] == stem
  {
    var middle := stem + "_" + token;
    assert middle[|middle| - |token|..] == token;
    assert middle[|middle| - |token| - 1] == '_';
    LastFieldUnique(middle, '_', token);
    assert middle[..|middle| - |token| - 1] == stem;
  }

  /** For one output directory, operator and format, two names built from
      the template are equal exactly when their stems and tokens agree, as
      long as neither token holds `_`. */
  lemma {:induction false} SameNameIffSameStemAndToken(outDir: string, operator: string, format: Format,
                                                       stem1: string, token1: string,
                                                       stem2: string, token2: string)
    requires '_' !in token1 && '_' !in token2
    ensures NameOf(outDir, stem1, token1, operator, format) == NameOf(outDir, stem2, token2, operator, format)
        <==> stem1 == stem2 && token1 == token2
  {
    ParseOutputNameInverts(outDir, stem1, token1, operator, format);
    ParseOutputNameInverts(outDir, stem2, token2, operator, format);
  }

  /** Two units of work with the same output directory, operator and format
      write the same file exactly when their stems and tokens agree. */
  lemma {:induction false} SameOutputNameIffSameStemAndToken(outDir: string, operator: string, format: Format,
                                          shapefile1: string, netcdf1: string,
                                          shapefile2: string, netcdf2: string)
    ensures OutputName(outDir, shapefile1, netcdf1, operator, format)
         == OutputName(outDir, shapefile2, netcdf2, operator, format)
        <==> Stem(shapefile1) == Stem(shapefile2) && Token(netcdf1) == Token(netcdf2)
  {
    SameNameIffSameStemAndToken(outDir, operator, format,
                                Stem(shapefile1), Token(netcdf1), Stem(shapefile2), Token(netcdf2));
  }

  /** Two different netcdfs in one directory whose file names agree up to
      the first `_` get the same output name for the same shapefile,
      operator and format. Whether the planner gives them the same operator
      depends on their full paths (Planner.SharedTokenOverwrites). */
  lemma {:induction false} SharedTokenCollides(outDir: string, shapefile: string, dir: string,
                                               token: string, rest1: string, rest2: string,
                                               operator: string, format: Format)
    requires '/' !in token && '_' !in token && '/' !in rest1 && '/' !in rest2
    requires rest1 != rest2
    ensures dir + "/" + token + "_" + rest1 != dir + "/" + token + "_" + rest2
    ensures OutputName(outDir, shapefile, dir + "/" + token + "_" + rest1, operator, format)
         == OutputName(outDir, shapefile, dir + "/" + token + "_" + rest2, operator, format)
  {
    TokenOf(dir, token, rest1);
    TokenOf(dir, token, rest2);
    var prefix := dir + "/" + token + "_";
    assert prefix + rest1 != prefix + rest2 by {
      assert (prefix + rest1)[|prefix|..] == rest1;
      assert (prefix + rest2)[|prefix|..] == rest2;
    }
  }
}
