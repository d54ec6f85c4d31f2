# Batch planning and output naming for area-weighted catchment statistics

This project is a Dafny model of the bookkeeping in
`area_weighted_raster_stats_using_shapefile.py`. That script computes
area-weighted zonal statistics of gridded climate NetCDF files over catchment
shapefiles. It runs one unit of work per (shapefile, netcdf) pair on a thread
pool. The model covers the two parts of the script that are its own logic and
not library calls:

- **The batch planner** (`construct_lists_for_parallel_function`). It takes the
  netcdf paths and the shapefile paths that the directory listings found. It
  builds four index-aligned lists: the shapefile list (the shapefiles repeated
  once per netcdf, then sorted), the netcdf list (the netcdfs repeated once per
  shapefile, not sorted), one operator per netcdf (`"mean"` when the full path
  contains `"tas"`, `"sum"` otherwise), and the output directory repeated.
- **The output file name** that `area_weighted_shapefile_rasterstats` writes
  to: `{output_dir}/{stem}_{token}_{operator}.csv` or `.nc`. The stem is the
  shapefile's file name up to its first `.`. The token is the netcdf's file
  name up to its first `_`.

The shapefile list is sorted and the netcdf list is not. One might read this
as a mismatched pairing, but the pairing is an exact cross product. Sorting R
copies of the shapefile listing, where R is the number of netcdfs, gives the
sorted listing with each entry repeated R times in a row: one block of length
R per listed entry, so a path listed k times gets k such blocks side by side
(`Planner.ShapefileBlocks`). The repeated netcdf list runs through the netcdfs
once per block. Position `i` therefore holds shapefile `i div R` of the sorted
listing and netcdf `i mod R` of the listing (`Planner.PlanAt`), and the
planned (shapefile, netcdf) pairs are the nested loop "for each shapefile in
sorted order, for each netcdf in listing order"
(`Planner.PairsAreCrossProduct`). Every combination occurs as often as the
product of how often its parts were listed (`Planner.CrossProductCounts`).
With no path listed twice, that is exactly once
(`Planner.CrossProductExactlyOnce`).

Modules, one per concern:

- `Text` (text.dfy): Python's `str.split` with a one-character separator, its
  first and last field, and the substring test `pat in s`.
- `StringOrder` (string_order.dfy): Python's ordering of `str` values (code
  point by code point, a proper prefix first), proved to be a total order. Also
  `list.sort`, modelled as the unique sorted permutation.
- `Replicate` (replicate.dfy): Python's `xs * n`, the in-place stretch that
  sorting produces, position-wise zipping, and the counting lemma behind the
  cross product.
- `Planner` (planner.dfy): the four lists, the calls `pool.map` makes over
  them, and their properties.
- `Naming` (naming.dfy): stem, token and output name, and a parser that
  recovers the stem and the token from a name.
- `Scenario` (scenario.dfy): a worked example with two netcdfs and two
  shapefiles.

The directory listings (`glob.glob`) are parameters: `Planner.Plan` takes the
netcdf and shapefile paths as sequences, in whatever order the filesystem
returned them.

## Model

| member | source | states |
|---|---|---|
| Planner.Plan | area_weighted_raster_stats_using_shapefile.py:99-127 | The four lists are aligned, and all are empty when either listing is empty. Every output directory entry is `OUT_DIR`. The shapefile list is sorted. Each operator is the one the operator rule gives for the netcdf at the same index. |
| Planner.OperatorFor | area_weighted_raster_stats_using_shapefile.py:119-125 | The operator is `"mean"` exactly when `"tas"` occurs somewhere in the netcdf path, and `"sum"` otherwise. |
| Planner.Operators | area_weighted_raster_stats_using_shapefile.py:119-125 | The operator loop yields one operator per netcdf entry, in order, each decided by that entry alone. |
| Planner.PlanSize | area_weighted_raster_stats_using_shapefile.py:114-117 | The plan has `len(netcdfs) * len(shapefiles)` units of work. |
| Planner.PlanAt | area_weighted_raster_stats_using_shapefile.py:114-116 | Position `i` of the shapefile list holds shapefile `i div len(netcdfs)` of the sorted listing, and position `i` of the netcdf list holds `netcdfs[i mod len(netcdfs)]`. |
| Planner.UnitsSize | area_weighted_raster_stats_using_shapefile.py:89-95 | `pool.map` over the four planned lists makes `len(netcdfs) * len(shapefiles)` calls. |
| Planner.UnitAt | area_weighted_raster_stats_using_shapefile.py:89-95 | Call `i` of `pool.map` over the four lists receives shapefile `i div len(netcdfs)` of the sorted listing, `netcdfs[i mod len(netcdfs)]`, the operator the rule picks for that netcdf, and the output directory. |
| Planner.ShapefileCounts | area_weighted_raster_stats_using_shapefile.py:114-115 | The shapefile list holds each shapefile `len(netcdfs)` times as often as the listing does, and nothing else. |
| Planner.ShapefileBlocks | area_weighted_raster_stats_using_shapefile.py:114-115 | The shapefile list is the sorted listing with each shapefile repeated `len(netcdfs)` times in a row, one contiguous block per listed entry. |
| Planner.SortRepeatIsStretch | area_weighted_raster_stats_using_shapefile.py:114-115 | Sorting R copies of the shapefile listing gives the sorted listing with each element repeated R times in a row. |
| Planner.StretchSorted | area_weighted_raster_stats_using_shapefile.py:114-115 | Repeating each element of a sorted list in place keeps it sorted. |
| Planner.PairsAreCrossProduct | area_weighted_raster_stats_using_shapefile.py:109-117 | For any sorted arrangement of the shapefile listing, the (shapefile, netcdf) pairs of the plan are, in order, each shapefile of that arrangement paired with each netcdf in listing order. |
| Planner.CrossProductCounts | area_weighted_raster_stats_using_shapefile.py:109-116 | Each (shapefile, netcdf) pair is planned as many times as the shapefile's count in its listing times the netcdf's count in its listing. |
| Planner.PlannedIffListed | area_weighted_raster_stats_using_shapefile.py:109-116 | A (shapefile, netcdf) pair is planned at all if and only if the shapefile and the netcdf were both listed. |
| Planner.CrossProductExactlyOnce | area_weighted_raster_stats_using_shapefile.py:109-116 | When neither listing repeats a path, every (shapefile, netcdf) combination is planned exactly once and nothing else is planned. |
| StringOrder.Sort | area_weighted_raster_stats_using_shapefile.py:115 | `list.sort` on strings returns a sorted permutation of its input. |
| StringOrder.SortIsTheSortedPermutation | area_weighted_raster_stats_using_shapefile.py:115 | Any sorted permutation equals Sort's result, so every correct sort (Python's included) gives the same list. |
| StringOrder.SortedUnique | area_weighted_raster_stats_using_shapefile.py:115 | Two sorted lists with the same elements, counted with multiplicity, are equal. |
| StringOrder.LessEqAntisymmetric | area_weighted_raster_stats_using_shapefile.py:115 | Python's string order relates two different strings in at most one direction. |
| StringOrder.LessEqTransitive | area_weighted_raster_stats_using_shapefile.py:115 | Python's string order is transitive. |
| StringOrder.LessEqTotal | area_weighted_raster_stats_using_shapefile.py:115 | Any two strings are comparable under Python's string order. |
| StringOrder.LessEqCommonPrefix | area_weighted_raster_stats_using_shapefile.py:115 | Adding a common prefix to two strings keeps their order. This orders paths in one directory by their file names; the worked example uses it to put `basinA.shp` before `basinB.shp`. |
| Replicate.RepeatLength | area_weighted_raster_stats_using_shapefile.py:114-117 | `xs * n` has `len(xs) * n` entries. |
| Replicate.RepeatAt | area_weighted_raster_stats_using_shapefile.py:116-117 | Entry `i` of `xs * n` is `xs[i mod len(xs)]`. |
| Replicate.RepeatCount | area_weighted_raster_stats_using_shapefile.py:114 | Each element occurs `n` times as often in `xs * n` as in `xs`. |
| Replicate.StretchAt | area_weighted_raster_stats_using_shapefile.py:114-115 | Entry `i` of the stretched list is `xs[i div n]`. |
| Replicate.ZipStretchRepeat | area_weighted_raster_stats_using_shapefile.py:114-116 | Pairing the stretched first list with the repeated second list gives the nested-loop cross product. |
| Replicate.ProductCount | area_weighted_raster_stats_using_shapefile.py:114-116 | The cross product contains each pair as often as the product of its components' counts. |
| Text.Contains | area_weighted_raster_stats_using_shapefile.py:122 | `pat in s` holds if and only if `pat` occurs at some position of `s`. |
| Text.Split | area_weighted_raster_stats_using_shapefile.py:52 | `split(sep)` returns at least one field, and no field contains the separator. |
| Text.JoinSplit | area_weighted_raster_stats_using_shapefile.py:52 | Joining the fields of `split(sep)` with `sep` gives back the original string. |
| Text.FirstField | area_weighted_raster_stats_using_shapefile.py:52 | The result is a prefix of `s` without `sep`, and it is either all of `s` or followed by `sep`. |
| Text.LastField | area_weighted_raster_stats_using_shapefile.py:52 | The result is a suffix of `s` without `sep`, and it is either all of `s` or preceded by `sep`. |
| Text.SplitFirst | area_weighted_raster_stats_using_shapefile.py:52 | `s.split(sep)[0]` is FirstField. |
| Text.SplitLast | area_weighted_raster_stats_using_shapefile.py:52 | `s.split(sep)[-1]` is LastField. |
| Naming.Stem | area_weighted_raster_stats_using_shapefile.py:52 | The stem is a prefix of the shapefile's file name, holds no `.` or `/`, and ends at the first `.` or at the end of the name. |
| Naming.Token | area_weighted_raster_stats_using_shapefile.py:52 | The token is a prefix of the netcdf's file name, holds no `_` or `/`, and ends at the first `_` or at the end of the name. |
| Naming.StemIsSplitField | area_weighted_raster_stats_using_shapefile.py:52 | The stem is exactly the field that `Path(...).name.split('.')[0]` selects. |
| Naming.TokenIsSplitField | area_weighted_raster_stats_using_shapefile.py:57 | The token is exactly the field that `split('/')[-1].split('_')[0]` selects. |
| Naming.StemOf | area_weighted_raster_stats_using_shapefile.py:52 | The stem of `dir/name.ext` is `name` when `name` has no `.` and `name.ext` has no `/`. |
| Naming.TokenOf | area_weighted_raster_stats_using_shapefile.py:52 | The token of `dir/token_rest` is `token` when `token` has no `_` and `token_rest` has no `/`. |
| Naming.CsvAndNetCdfNamesDifferOnlyInExtension | area_weighted_raster_stats_using_shapefile.py:51-58 | The CSV name and the NetCDF name of a unit of work are the same string followed by `.csv` and by `.nc`. |
| Naming.ParseOutputNameInverts | area_weighted_raster_stats_using_shapefile.py:57 | Given the directory, operator and format, a name built from the template gives back its stem and token, when the token has no `_`. |
| Naming.SameNameIffSameStemAndToken | area_weighted_raster_stats_using_shapefile.py:51-58 | For one directory, operator and format, two names from the template are equal if and only if their stems and their tokens are, when neither token has `_`. |
| Naming.SameOutputNameIffSameStemAndToken | area_weighted_raster_stats_using_shapefile.py:51-58 | Two units of work with the same directory, operator and format write the same file if and only if their stems and tokens agree. |
| Naming.SharedTokenCollides | area_weighted_raster_stats_using_shapefile.py:57 | Two different netcdfs in one directory whose names agree before the first `_` get the same output name for the same shapefile, operator and format. |
| Planner.SharedTokenOverwrites | area_weighted_raster_stats_using_shapefile.py:57 | Two different netcdfs in one directory whose names agree before the first `_`, and which get the same operator (both full paths contain `tas` or neither does), get the same output file for one shapefile, so one overwrites the other. |
| Scenario.TwoByTwo | area_weighted_raster_stats_using_shapefile.py:114-125 | For two netcdfs `t, p` and two shapefiles listed as `b, a` with `a <= b`, the lists are `[a, a, b, b]`, `[t, p, t, p]`, the operators of `t, p, t, p`, and four copies of the directory. |
| Scenario.TwoByTwoPlan | area_weighted_raster_stats_using_shapefile.py:99-127 | With `tas_1950.nc`, `pr_1950.nc`, `basinB.shp` and `basinA.shp`: basin A's units come first, and the operators are mean, sum, mean, sum. |
| Scenario.TwoByTwoNames | area_weighted_raster_stats_using_shapefile.py:51-58 | The example's units are named `/out/basinA_tas_mean.nc`, `/out/basinA_pr_sum.nc`, `/out/basinB_tas_mean.csv` and `/out/basinB_pr_sum.csv`: NetCDF for basin A and CSV for basin B. |
| Scenario.TasYearsCollide | area_weighted_raster_stats_using_shapefile.py:57 | The different netcdfs `/in/tas_1950.nc` and `/in/tas_1951.nc` both get the mean and give basin A the same NetCDF output name, so one run overwrites the file of the other. |
| Scenario.SharedTokenDifferentOperators | area_weighted_raster_stats_using_shapefile.py:121-125 | `/in/pr_1950.nc` and `/in/pr_tasmin.nc` share the token `pr` but get the sum and the mean, so basin A's NetCDF names differ. |

## Left out

- The directory listings (`glob.glob`, lines 109-110) are not modelled. The
  model takes their results as input sequences in any order. Glob's pattern
  matching (`*nc`, `*shp`), its skipping of hidden files and its
  filesystem-dependent order are all outside the model.
- Loading, shape extraction, area statistics, conversion to a data frame and
  the CSV and NetCDF writers (lines 34-58) are left out. They are calls into
  iris, esmvalcore and pandas that compute with floating point and write
  files. Only the names of the written files are modelled.
- The `return_cube` branch (lines 60-63) is left out. It only returns an
  opaque cube object.
- `run_function_parallel` (lines 65-97) is modelled only through the calls
  that `pool.map` makes over the four lists (Planner.Units: call `i` takes
  entry `i` of each list, as `zip` does). `pool.map` passes four positional
  arguments, so every call uses the defaults `output_csv=False` and
  `return_cube=False` (lines 19-20, 89-95): the parallel run writes only the
  NetCDF names of line 57, and the CSV names of line 52 come only from direct
  calls with `output_csv=True`. The pool,
  its threads, the order in which calls run and finish, and the timing around
  it are left out. They belong to the pool library and the operating system.
- The hard-coded directory constants and the notebook cell that calls the
  planner and times the parallel run (lines 9-12, 129-139) are left out. They
  are configuration and I/O.
- Naming.FileName models `Path(p).name` as the text after the last `/`. Python
  normalises trailing `/` and `/.` components first, so the two differ for
  such paths. Paths that glob returns for `*shp` never end that way.
- Python strings may hold lone surrogate code points, but Dafny's `char`
  cannot. The string order is otherwise the same code-point order.
