# alleninf in Dafny

alleninf relates a statistical brain map to gene expression measured by the
Allen Brain Atlas. This project models the three parts of it that are logic and
not I/O or statistics:

- **Spherical sampling and masked extraction** (`alleninf/data.py`).
  - `get_sphere` finds the voxels within `r` mm of a centre voxel.
  - `get_values_at_locations` gives each location the mean of the map over the
    admitted voxels of that neighbourhood, or NaN when none is admitted. It does
    this by writing a fresh boolean `sph_mask` array in place.
  - `combine_expression_values` averages the probes of a gene.
- **Query strings and sample bookkeeping** (`alleninf/api.py`).
  - The Allen API queries are built by quoting and comma-joining names or ids.
  - The probe id → name map is built from the search response.
  - On the REST path and the HDF path, the well ids and donor names of the
    samples stay aligned.
  - The HDF path reads each well id back from its `well_id_<n>` column name,
    which is written at `alleninf/utils.py:27`.
- **Dataset bookkeeping** (`alleninf/datasets.py`).
  - Checksum files are parsed.
  - The dataset directory is resolved in priority order.
  - `_fetch_file` names the local files, returns early for a file that already
    exists, resumes a partial download, and rejects a checksum mismatch.

How the model is laid out:

- Modules follow the source:
  - `Sphere`, `SphereAgreement`, `Extract`, `ExtractScenario` and `Combine` for
    `data.py`;
  - `ApiQueries`, `ApiWells` and `Api` for `api.py`;
  - `Md5Sums`, `DatasetDir` and `Fetch` for `datasets.py`.
  - `Geometry` and `Wrappers` are shared vocabulary.
- Volumes are flat sequences in numpy's C order.
- NaN is a sample value of its own (`Extract.Sample.NaN`).
- Exceptions become `Failure` values of a `Result`.
- These parts become parameters of the model:
  - the network: a request function from the URL to the decoded response;
  - the HDF reads: a function from donor and where-clause to that donor's table;
  - the environment variable and the home directory;
  - the MD5 digest.
- Imperative code stays imperative:
  - the `sph_mask` array is filled in place (`Extract.NeighbourhoodMask`);
  - the location loop, the masked-mean loop, the per-donor HDF loop and the
    checksum-file `readline` loop are `while`/`for` loops, each proved against a
    specification function;
  - `_fetch_file` is a method of a `Disk` class whose `files` map it updates in
    place.

## Model

| member | source | states |
|---|---|---|
| `Geometry.Grid` | alleninf/data.py:14-16 | the `np.mgrid` cube holds every combination of one candidate per axis, and has the product of the axis counts as its size |
| `Sphere.RoundHalfEven` | alleninf/data.py:19 | numpy rounding: the nearest integer, and a tie goes to the even neighbour |
| `Sphere.AxisOffsetsAreSliceSteps` | alleninf/data.py:14-16 | the candidates on an axis are `-r/d + k`, every one below `r/d + 0.01`, and the next step would not be |
| `Sphere.GetSphere` | alleninf/data.py:9-20 | the sampler as written raises (numpy's ValueError for a negative `np.indices` dimension) iff `r/vd ≤ -0.505` on some axis; otherwise it returns only voxels inside the image |
| `Sphere.AxisRaisesBelowHalfVoxel` | alleninf/data.py:14-16 | `np.mgrid`'s point count `ceil(2r/vd + 0.01)` on an axis is negative iff `r/vd ≤ -0.505` |
| `Sphere.GetSphereMembers` | alleninf/data.py:14-20 | when the sampler does not raise, a voxel is returned iff it is in the image and is the rounding of `c + o` for a cube offset `o` whose unrounded length is within `r`: the distance filter comes before rounding |
| `Sphere.HalfVoxelAxis` | alleninf/data.py:14-15 | for `r = 0.5` and 1 mm voxels each axis has exactly the candidates -0.5 and 0.5 |
| `Sphere.HalfVoxelRadiusIsEmpty` | alleninf/data.py:14-18 | as written, a half-voxel radius gives an empty sphere, whatever the centre (see Findings) |
| `Sphere.VoxelAndAHalfAxis` | alleninf/data.py:14-15 | for `r = 3` and 2 mm voxels the candidates on that axis are -1.5, -0.5, 0.5 and 1.5 |
| `Sphere.OddCentreMissed` | alleninf/data.py:14-19 | as written, with `r = 3` and 2 mm voxels along x, a centre with an odd x coordinate is never in its own sphere (see Findings) |
| `Sphere.IntegerOffsetsMembers` | alleninf/data.py:17-18 | the whole-voxel offsets kept are exactly those whose physical length is within `r` |
| `Sphere.CorrectedSphere` | alleninf/data.py:9-20 | a voxel is returned iff it is in the image and within `r` mm of the centre |
| `Sphere.CentreInCorrectedSphere` | alleninf/data.py:10-12 | an in-image centre is always in its own sphere for any radius ≥ 0 |
| `Sphere.CorrectedSphereMonotone` | alleninf/data.py:17-18 | a larger radius never loses a voxel |
| `SphereAgreement.AgreeOnWholeVoxelRadius` | alleninf/data.py:14-20 | when `r` is a whole number of voxels on every axis, the sampler as written does not raise and returns the same voxels as the corrected one |
| `Extract.WrapIndex` | alleninf/data.py:60 | numpy reads an index in `[-n, n)`, counting a negative one from the end; anything else raises IndexError |
| `Extract.Normalise` | alleninf/data.py:60 | the voxel the zero-radius path marks is in the image, and an in-image centre marks itself |
| `Extract.MaskOf` | alleninf/data.py:44-46 | with a mask file, a voxel is admitted iff its mask value is a number above 0 |
| `Extract.ImplicitMaskOf` | alleninf/data.py:47-50 | without one, a voxel is admitted iff its own value is a number other than 0 |
| `Extract.SphereIndices` | alleninf/data.py:56-57 | the buffer positions of `get_sphere` as written: a ValueError exactly when `get_sphere` raises, and otherwise all inside the volume |
| `Extract.Region` | alleninf/data.py:55-60 | the neighbourhood fails with IndexError iff the radius is 0 and numpy cannot index the centre, and with ValueError iff the radius is non-zero (negative ones included) and `r/vd ≤ -0.505` on some axis; otherwise it is inside the volume |
| `Extract.NeighbourhoodMask` | alleninf/data.py:54-60 | the call fails iff the neighbourhood does, with the same exception; otherwise the fresh mask array is true exactly on the neighbourhood's positions |
| `Extract.MaskedMean` | alleninf/data.py:62-68 | the loop's result is the mean of the admitted neighbourhood samples in buffer order, or NaN when there are none |
| `Extract.ValueAt` | alleninf/data.py:53-69 | one location's value is the specification `LocationValue` |
| `Extract.MarkAll` | alleninf/data.py:57 | `sph_mask[sph] = True` sets exactly the listed positions and leaves every other entry as it was |
| `Extract.Collect` | alleninf/data.py:52-70 | a loop that an exception stops: it fails iff some step fails, with the exception of the first failing step, and otherwise yields every step's value in order |
| `Extract.CollectFirstFailure` | alleninf/data.py:52-70 | after steps that all succeeded, the first failing step's exception ends the loop |
| `Extract.ValuesAtEach` | alleninf/data.py:52-69 | the loop over the locations computes `Collect` of the per-location values, stopping at the first exception |
| `Extract.ValuesAtLocations` | alleninf/data.py:39-70 | one value per location, in order, entry i from location i alone; the call fails iff some location's neighbourhood fails, and then with the exception of the first such location |
| `Extract.PointSample` | alleninf/data.py:55-68 | with radius 0, the value is the centre sample if the mask admits it, and NaN otherwise |
| `Extract.NoAdmittedVoxelIsNaN` | alleninf/data.py:62-68 | a neighbourhood the mask admits nothing of gives NaN |
| `Extract.ImplicitMaskNaNIffNoneAdmitted` | alleninf/data.py:47-68 | without a mask file the value is NaN iff no neighbourhood voxel is admitted |
| `Extract.HalfVoxelRadiusReadsNaN` | alleninf/data.py:55-68 | as written, a 0.5 mm radius with 1 mm voxels gives every location NaN, whatever the data and the mask (see Findings) |
| `Extract.AdmittedNaNPropagates` | alleninf/data.py:44-66 | with a mask file, an admitted voxel whose data value is NaN makes the value NaN |
| `Extract.SelectedCountsDistinctVoxels` | alleninf/data.py:57-66 | the mean is over distinct admitted voxels: a voxel reached twice counts once |
| `ExtractScenario.PeakScenario` | alleninf/data.py:39-70 | the worked case (3×3×3 of 1.0, centre 5.0, radius 1 mm, full mask): the centre and six face neighbours give 11/7 |
| `Combine.Average` | alleninf/data.py:73-74 | one value per sample |
| `Combine.CombineExpressionValues` | alleninf/data.py:72-81 | "average" with at least one probe gives the per-sample mean `Average`, one value per sample, and with no probes fails; "pca" gives the component `pca` computes; any other method is an error |
| `Combine.AverageOfCopies` | alleninf/data.py:74 | averaging copies of one probe vector gives that vector |
| `Combine.AverageBetweenProbeValues` | alleninf/data.py:74 | each averaged value lies between the smallest and the largest probe value of its sample |
| `Combine.AverageExample` | alleninf/data.py:72-74 | `[[1,2,3],[3,2,1]]` averages to `[2,2,2]` |
| `ApiQueries.AsList` | alleninf/api.py:13-14 | a single item gives a one-element list, and a list keeps its length |
| `ApiQueries.Quote` | alleninf/api.py:16 | a quoted name is the name between two single quotes |
| `ApiQueries.JoinQuoted` | alleninf/api.py:16-21 | the joined list is empty iff there are no items |
| `ApiQueries.ParseJoinQuoted` | alleninf/api.py:16-21 | reading back a joined list of quote-free names gives the names |
| `ApiQueries.ProbeQuery` | alleninf/api.py:18-22 | the probe query starts with the criteria, DNA and HumanMA fragments and ends with the only-options fragment |
| `ApiQueries.ProbeQueryRoundTrip` | alleninf/api.py:12-22 | the gene list read back from the probe query is exactly the requested genes |
| `ApiQueries.SingleGeneAsList` | alleninf/api.py:13-14 | a single gene and a one-element list give the same queries |
| `ApiQueries.ExpressionQuery` | alleninf/api.py:49-50 | the expression request is the microarray-expression criteria around the id list |
| `ApiQueries.ExpressionQueryRoundTrip` | alleninf/api.py:44-50 | the ids read back from the expression request are the requested ids |
| `ApiQueries.WhereQuery` | alleninf/api.py:72-73 | the HDF where-clause is `index in [` … `]` |
| `ApiQueries.WhereQueryRoundTrip` | alleninf/api.py:72-73 | the ids read back from the where-clause are the requested ids |
| `ApiQueries.WhereQueryExample` | alleninf/api.py:72-73 | two ids give `index in ['1058685','1058684']` |
| `ApiWells.IntToString` | alleninf/utils.py:27 | `str(n)` starts with `-` iff `n` is negative |
| `ApiWells.WellColumnName` | alleninf/utils.py:27 | a well's column name starts with `well_id_` |
| `ApiWells.IntStringRoundTrip` | alleninf/utils.py:27 | `int(str(n)) == n` |
| `ApiWells.WellColumnRoundTrip` | alleninf/api.py:80 | stripping `well_id_` from a written column name and parsing the rest gives the well back |
| `ApiWells.WellColumnNamesDistinct` | alleninf/utils.py:27 | distinct wells get distinct columns |
| `ApiWells.BareColumnFails` | alleninf/api.py:80 | a column no longer than the prefix slices to "" and fails to parse |
| `Api.ProbeMap` | alleninf/api.py:26 | the keys are exactly the ids in the response |
| `Api.ProbeMapLastWins` | alleninf/api.py:26 | a repeated id keeps the name of its last record |
| `Api.ProbeMapSize` | alleninf/api.py:26 | the map has no more entries than the response has records |
| `Api.GetProbesFromGenes` | alleninf/api.py:12-33 | success iff the response is non-empty; otherwise an error naming the last gene, or NameError when no gene was given |
| `Api.ProbesFromGenesCoverResponse` | alleninf/api.py:24-33 | every response record's id is in the result, mapped to the name of a record with that id at or after it |
| `Api.ExpressionRest` | alleninf/api.py:43-61 | the REST path fails with IndexError iff the response has fewer probes than were requested |
| `Api.RestAligned` | alleninf/api.py:53-57 | the rows are the response's first probes, one per requested probe, and well id i and donor name i both come from response sample i |
| `Api.WellIdsOf` | alleninf/api.py:80 | the well ids parse iff every column parses, one id per column, in order |
| `Api.Concatenate` | alleninf/api.py:84 | the concatenation succeeds iff there is a block and all blocks have the same number of rows |
| `Api.ExpressionValuesHdf` | alleninf/api.py:64-85 | the per-donor loop computes the specification `ExpressionHdf` |
| `Api.GatherAligned` | alleninf/api.py:78-82 | after n donors, n blocks and one well id and one donor name per column; sample k is column c of donor b exactly where k counts the columns of the donors before b, then c |
| `Api.ColumnPositionUnique` | alleninf/api.py:78-82 | a position in the side-by-side columns belongs to one donor and one column, so the donor order of the samples is fixed |
| `Api.GatherJoinRow` | alleninf/api.py:82-84 | in joined row p, donor b's column c holds that table's value at row p, column c |
| `Api.GatherSampleAt` | alleninf/api.py:80-81 | the well id and donor name at donor b's column c come from that column of that table |
| `Api.HdfAligned` | alleninf/api.py:75-85 | a successful HDF read has at least one donor, one well id and one donor name per table column, in donor and column order |
| `Api.HdfRowsSpanAllWells` | alleninf/api.py:82-84 | for well-formed tables every probe row has one value per sample |
| `Api.HdfSampleColumn` | alleninf/api.py:75-85 | for well-formed tables the sample at donor b's column c is one sample throughout: its value in each probe row, its donor name and its well id all come from that column |
| `Api.WellIdsOfNamedColumns` | alleninf/api.py:80 | columns named by the table writer read back as their wells |
| `Api.HdfIds` | alleninf/api.py:72 | a list of ids is used as is, and a single string is iterated character by character |
| `Api.GetExpressionValues` | alleninf/api.py:36-40 | `restapi` selects the REST path, otherwise the HDF path |
| `Md5Sums.RStrip` | alleninf/datasets.py:57 | the stripped line is a prefix that ends in a non-space, and everything cut off is whitespace |
| `Md5Sums.ReadLine` | alleninf/datasets.py:54 | a read line is a prefix of the rest of the file, empty only at the end |
| `Md5Sums.LinesCoverText` | alleninf/datasets.py:53-56 | the lines read until end of file make up the whole file |
| `Md5Sums.ReadMd5SumFile` | alleninf/datasets.py:48-59 | the loop computes the specification `Hashes` of the file's lines |
| `Md5Sums.ParseLineRoundTrip` | alleninf/datasets.py:57 | `<hash>  <name>\n` parses to hash and name, and the name keeps any further double spaces |
| `Md5Sums.BlankLineFails` | alleninf/datasets.py:53-57 | a blank line does not end the loop and fails to split |
| `Md5Sums.HashesFailIffBadLine` | alleninf/datasets.py:53-58 | the file fails iff some line has no double space |
| `Md5Sums.LastLineWins` | alleninf/datasets.py:58 | a name on several lines gets the hash of its last line |
| `Md5Sums.HashesFromLines` | alleninf/datasets.py:57-58 | every name in the map comes with its hash from some line of the file |
| `DatasetDir.PathJoin` | alleninf/datasets.py:197 | `os.path.join`: an absolute second part wins; otherwise the result starts with the first part and ends with the second |
| `DatasetDir.ExpandUser` | alleninf/datasets.py:196 | `~/alleninf_data` is the home directory, trailing slashes removed, plus `/alleninf_data` |
| `DatasetDir.GetDatasetDir` | alleninf/datasets.py:195-199 | the result is the base directory joined with the dataset name, then with the folder when one is given |
| `DatasetDir.PathJoinSplits` | alleninf/datasets.py:197 | a relative part joined below a directory can be split off again |
| `DatasetDir.DataDirWins` | alleninf/datasets.py:195-196 | a non-empty `data_dir` decides alone |
| `DatasetDir.EnvironmentWins` | alleninf/datasets.py:195-196 | without `data_dir`, a set `ALLENINF_DATA` makes the home directory irrelevant |
| `DatasetDir.EnvironmentActsAsDataDir` | alleninf/datasets.py:195-197 | a non-empty `ALLENINF_DATA` acts as the same `data_dir` |
| `DatasetDir.EmptyEnvironmentIsRelative` | alleninf/datasets.py:195-197 | `ALLENINF_DATA=""` is used, and the directory becomes the bare dataset name |
| `DatasetDir.HomeDefault` | alleninf/datasets.py:195-197 | with nothing configured, the dataset lives in `alleninf_data` under the home directory |
| `DatasetDir.FolderBelowDataset` | alleninf/datasets.py:198-199 | a folder is joined below the dataset directory |
| `DatasetDir.EmptyFolderAddsSlash` | alleninf/datasets.py:198-199 | `folder=""` is not None and adds a trailing slash |
| `DatasetDir.AbsoluteNameIgnoresBase` | alleninf/datasets.py:197 | an absolute dataset name replaces the base directory |
| `Fetch.Basename` | alleninf/datasets.py:301 | the base name has no `/` |
| `Fetch.FileName` | alleninf/datasets.py:300-301 | the stored name has no `/` and no `;` |
| `Fetch.HttpUrlPath` | alleninf/datasets.py:300-301 | for an http URL the path, and so the file name, ignore host, query and fragment |
| `Fetch.TempIsFullPlusPart` | alleninf/datasets.py:303-305 | the partial download is the final path plus `.part`, and never the final path itself |
| `Fetch.Remove` | alleninf/datasets.py:306-313 | `os.remove` deletes that path and nothing else |
| `Fetch.Move` | alleninf/datasets.py:343 | `shutil.move` puts the temporary contents at the final name and deletes the temporary name, nothing else changing |
| `Fetch.Cleared` | alleninf/datasets.py:306-313 | a fetch that downloads starts with the final file gone and the partial download kept iff it existed and `overwrite` is off; nothing else changes |
| `Fetch.Finish` | alleninf/datasets.py:343-366 | after the move, the fetch fails iff a checksum was given and the digest differs |
| `Fetch.Disk.FetchFile` | alleninf/datasets.py:260-366 | the in-place fetch returns and leaves the disk as the specification `FetchSpec` says |
| `Fetch.ExistingFileShortCircuits` | alleninf/datasets.py:306-310 | an existing file without `overwrite` is returned and the disk is unchanged |
| `Fetch.OverwriteDownloadsAfresh` | alleninf/datasets.py:306-313 | with `overwrite`, the final file holds the fresh download, no `.part` remains, and success depends only on the checksum |
| `Fetch.ChecksumMismatchFails` | alleninf/datasets.py:362-365 | a download whose digest differs fails with the checksum error and the file stays in place |
| `Fetch.ResumeAppends` | alleninf/datasets.py:320-366 | a range the server honours (206) is appended to the partial download, and the checksum, when given, decides the result |
| `Fetch.RefusedRangeAppendsReply` | alleninf/datasets.py:320-366 | a refused range (any other status) does not restart: the reply's body is appended, the checksum is still checked, and over a non-empty partial download the stored file differs from what the server sent (see Findings) |
| `Fetch.ResumeConnectionFailureKeepsPart` | alleninf/datasets.py:320-357 | a ranged request that cannot connect raises an `IOError` that nothing catches: the fetch fails and the disk is unchanged |
| `Fetch.IntendedRefusalDownloadsAfresh` | alleninf/datasets.py:326-332 | with the fallback the code describes, a refused range restarts as a complete download and stores exactly the downloaded file |
| `Fetch.SuccessLeavesFinalFile` | alleninf/datasets.py:343-366 | every success returns the final path, and that file is on disk |
| `Fetch.DownloadLeavesNoPart` | alleninf/datasets.py:306-343 | a success that had to download (no final file yet, or `overwrite`) leaves no `.part` file |
| `Fetch.StalePartSurvivesShortCircuit` | alleninf/datasets.py:306-310 | the early return for an existing file keeps a stale `.part` file |
| `Fetch.MismatchedFileReturnedLater` | alleninf/datasets.py:306-365 | a file that failed its checksum stays, and the same fetch made again returns it as a success without checking (see Findings) |
| `Fetch.CleanFinish` | alleninf/datasets.py:292-293 | finishing as documented: a failed checksum leaves neither the final file nor the partial one, and a success stores the downloaded file |

## Left out

- NIfTI loading, the header's voxel sizes and the inverse-affine mapping of world
  coordinates (alleninf/data.py:41-42, 53): each location arrives as its rounded
  centre voxel, with the volume and voxel sizes as inputs. Python 2 `round` of
  the centre is part of that mapping.
- `Extract.WrapIndex`: Python 2 `round` returns floats, so the zero-radius path
  indexes `sph_mask` with whole-valued floats (alleninf/data.py:53, 60). The
  model assumes numpy before 1.12, which accepts such indices with the usual
  wrap-around. numpy 1.12 and later raises IndexError for every float index,
  so there every zero-radius location would fail.
- The "pca" method of `combine_expression_values` (a library SVD): it is the
  opaque parameter `pca`.
- Floating point: values, radii and voxel sizes are exact reals; NaN is a
  separate value and `mean` is an exact sum divided by the count.
- `read_donor_data`, `get_mni_coordinates_from_wells`, `alleninf/analysis.py` and
  the rest of `alleninf/utils.py`: CSV, HDF and plotting I/O, and statistics.
- All network and HDF access: it is a parameter. Not modelled:
  - JSON decoding;
  - `float()` of the expression levels;
  - the unused `mri` field of each sample;
  - `walkGroups` (the donor list is an input).
- `ApiWells.ParseInt`: Python's `int()` also accepts surrounding whitespace; that is not modelled.
- `Api.HdfIds`: a single integer id on the HDF path raises TypeError in the source; ids are strings here.
- `Fetch.FileName`: URLs whose scheme is written without `//`, and the
  scheme-specific `;params` rules of `urlparse`, are simplified. Params are
  always split from the last segment.
- In `_fetch_file`, these are not modelled:
  - creating the data directory (alleninf/datasets.py:296-297);
  - timing and messages;
  - streaming in chunks. A transfer that fails midway leaves a partial file in
    the source, but here a download is all or nothing.
- `Fetch.Disk.FetchFile`: the disk holds files only, not directories. With an
  empty base name the source's final path is the data directory itself, which
  `os.path.exists` finds; here it is a file name like any other.
- The import at alleninf/api.py:7 names `fetch_microarray_expression`, but
  alleninf/datasets.py:549 defines `fetch_microarray_exression`, so importing
  `api.py` as written raises ImportError. The `Api*` modules assume the import
  succeeds; the download wrapper itself is not part of this model.
- `_get_dataset_dir`: `makedirs` is left out (only the path is computed).
- `_md5_sum_file`, `_chunk_read_`, `_uncompress_file`, `movetree`, `_fetch_files`,
  `_tree`, `_format_time` and `_chunk_report_`: hashing, archive handling, directory
  walking and formatting. The digest is the parameter `digest`.

## Findings

| source | as written | input that shows it | evidently intended | confidence | as-written member | corrected member |
|---|---|---|---|---|---|---|
| alleninf/data.py:14-18 | The cube offsets run from `-r/vd` in steps of 1, so they are whole voxels only when `r/vd` is an integer. They are filtered by distance before rounding. | `r = 0.5`, voxel size 1 mm: the offsets are ±0.5 on every axis, 0.866 voxels from the centre, so all are discarded and the sphere is empty. The centre voxel, at distance 0, is never sampled. | Every image voxel within `r` mm of the centre, which always includes the centre itself (the docstring: "all points within r mm of coordinates"). | not executed | `Sphere.HalfVoxelRadiusIsEmpty` | `Sphere.CorrectedSphere` |
| alleninf/data.py:14-19 | The same offsets, when `r/vd` ends in .5 on an axis, are all halves there. `np.round` sends every half to an even coordinate. | `r = 3` mm with 2 mm voxels along x: the x offsets are -1.5, -0.5, 0.5 and 1.5, so every sampled x coordinate is even, and a centre with an odd x is never sampled. | The centre is always sampled. | not executed | `Sphere.OddCentreMissed` | `Sphere.CentreInCorrectedSphere` |
| alleninf/datasets.py:320-332 | The resuming opener is a `urllib.FancyURLopener`, which returns an error reply like any other instead of raising, so the `except urllib2.HTTPError` fallback never runs. The reply's body is appended whatever its status. | A `.part` of k > 0 bytes, and a server that ignores `Range` and sends the whole file F with status 200: the stored file is the old part followed by F, which is not F. Without a checksum it is returned as the result; with the checksum of F, the fetch fails. | A refused range switches back to a complete download, as the comment at lines 329-330 says, and stores F. | not executed | `Fetch.RefusedRangeAppendsReply` | `Fetch.IntendedRefusalDownloadsAfresh` |
| alleninf/datasets.py:362-365 | A checksum failure raises after the file has been moved into place, and leaves it there. | A download whose digest differs from `md5sum`: the call fails, but the bad file stays, and the same call made again returns it through the early return at lines 306-310 without checking it. | "If, for any reason, the download procedure fails, all downloaded files are removed" (lines 292-293). | not executed | `Fetch.MismatchedFileReturnedLater` | `Fetch.CleanFinish` |

The extractor follows the program and calls the sampler as written.
`Extract.HalfVoxelRadiusReadsNaN` shows that the first discrepancy reaches the
output. `SphereAgreement.AgreeOnWholeVoxelRadius` proves that the two samplers
agree whenever the radius is a whole number of voxels on every axis. The worked
case in `ExtractScenario` relies on this.

Likewise, `Fetch.FetchSpec` and `Fetch.Disk.FetchFile` follow the program.
`Fetch.IntendedFetchSpec` and `Fetch.CleanFinish` exist only to state the
intended behaviour of the last two rows.
