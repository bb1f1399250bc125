# Google Drive adapter core, modelled in Dafny

This project models the path-resolution, caching and policy layer of
`GoogleDriveAdapter`, the Flysystem adapter for Google Drive in
`src/GoogleDriveAdapter.php`. It covers:

- how an "itemId path" is split into a parent id and a leaf (`splitPath`),
  and the smaller path helpers;
- how a DriveFile becomes a metadata array (`normaliseObject`);
- the adapter's three object caches and `getFileObject`, together with the
  operations that write the caches: `createDirectory`, `copy`,
  `normaliseUploadedFile` and `clearCache`;
- the delete policy (`delete`);
- visibility (`getRawVisibility`, `publish`, `unPublish`);
- upload sizing and request selection (`getIniBytes`,
  `detectChunkSizeBytes`, `readFileChunk`, the single-shot or chunked
  decision, and the create or update choice of `ensureDriveFileExists`);
- the request-parameter and URL helpers (`applyDefaultParams`,
  `getDownloadUrl`).

The Google Drive service is not modelled. Each operation receives Drive's
answers as parameters:

- the reply to `files.get`, or the error code;
- whether a folder listing found sub-folders;
- the DriveFile a create, copy or upload returns;
- the id of a created permission;
- which permission deletions throw.

Each operation returns the sequence of `Call` values it sent.

The modules follow the structure of the PHP class:

| module | file | what it holds |
|---|---|---|
| `Common` | common.dfy | `Option`, PHP string truthiness, `Min`/`Max` |
| `Text` | text.dfy | `explode`, `join`, `trim` with a character list, `strtolower` on a byte |
| `Paths` | paths.dfy | `splitPath`, `splitFileExtension`, `normalizeDirname`, `dirname`, and the documented behaviour of Flysystem's `PathPrefixer::prefixPath` |
| `Drive` | drive.dfy | DriveFile, Permission, the request log `Call`, the configuration, and the constructor's choice of root |
| `Api` | api.dfy | `applyDefaultParams`, `getDownloadUrl`, and `rawurlencode` with its inverse |
| `Metadata` | metadata.dfy | `normaliseObject` |
| `Sizing` | sizing.dfy | `getIniBytes` (with PHP's `(int)` cast) and `detectChunkSizeBytes` |
| `Requests` | requests.dfy | `ensureDriveFileExists` |
| `Streams` | streams.dfy | a stream with a cursor, and `readFileChunk` |
| `Upload` | upload.dfy | `uploadResourceToGoogleDrive` and its chunk loop |
| `Cache` | cache.dfy | `getFileObject`, `clearCache`, `createDirectory` and `normaliseUploadedFile`, as functions on the cache value |
| `Visibility` | visibility.dfy | `getRawVisibility`, `publish`, `unPublish` |
| `Commands` | commands.dfy | `delete` and `copy` |
| `Adapter` | adapter.dfy | the class `GoogleDriveAdapter` |

The class `GoogleDriveAdapter` holds the configuration and the three cache
maps as fields. Its methods update those fields in place, step by step, as
the PHP methods do. Each method is proved to leave exactly the caches, and
send exactly the requests, that the value-level definition of the same
operation describes. The properties of those definitions are proved as
lemmas next to them. Where the code is wrong (see "## Findings"), the code as
written is modelled by an `...AsWritten` definition with a lemma that shows
the fault, and the class follows the corrected definition: the
`ensureDriveFileExists` request, `publish`, `unPublish`, and the visibility
step of `copy`.

`getIniBytes` casts with PHP's `(int)` as PHP 7.1 and later do: a leading
number with a fraction or an exponent is read whole and truncated, so
"1e3M" is 1000 MiB and "1.5G" is 1 GiB (`Sizing.IniSizeScientific`,
`Sizing.IniSizeFraction`).

Two points of behaviour are reproduced as the code has them:

- `clearCache` empties the by-id cache and the hasDir cache, but keeps the
  by-name cache. So after `delete`, a path still resolves through the
  by-name cache when it was known there (`Commands.DeletedStillFoundByName`).
- `createDirectory` always sends `files.create`. There is no check for an
  existing folder, so it is not idempotent on Drive.

`detectChunkSizeBytes` with a 1 GiB limit and 500 MiB in use gives the
100 MiB cap, because a quarter of the 524 MiB left is above the cap
(`Sizing.ChunkSizeExamples`).

## Model

| member | source | states |
|---|---|---|
| `Text.Explode` | src/GoogleDriveAdapter.php:885-886 | `explode` never returns an empty list |
| `Text.ExplodePieces` | src/GoogleDriveAdapter.php:885-886 | no piece of `explode` contains the separator |
| `Text.ExplodeCount` | src/GoogleDriveAdapter.php:885-886 | `explode` gives a single piece exactly when the separator does not occur |
| `Text.ExplodeSnoc` | src/GoogleDriveAdapter.php:885-886 | `explode` of `q + sep + leaf`, with no separator in `leaf`, is the pieces of `q` followed by `leaf` |
| `Text.ImplodeExplode` | src/GoogleDriveAdapter.php:885-891 | joining the pieces of `explode` with the same separator gives back the original string |
| `Text.ExplodeImplode` | src/GoogleDriveAdapter.php:885-891 | exploding the join of separator-free pieces gives back the pieces |
| `Text.ExplodeNoSep` | src/GoogleDriveAdapter.php:885 | a string without the separator explodes to itself alone |
| `Text.ExplodeAfterPiece` | src/GoogleDriveAdapter.php:885 | `explode` of `a + sep + b` is `a` followed by the pieces of `b` |
| `Text.ImplodeSnoc` | src/GoogleDriveAdapter.php:891 | a join is the join of all but the last piece, then the separator, then the last piece |
| `Text.LastPiece` | src/GoogleDriveAdapter.php:885-886 | the last piece of `explode` is exactly the text after the last separator, and the other pieces joined are the text before it |
| `Text.TrimLeft` | src/GoogleDriveAdapter.php:1328 | the result is a suffix of the input; it does not start with a listed character; everything removed was listed |
| `Text.TrimRight` | src/GoogleDriveAdapter.php:1328 | the result is a prefix of the input; it does not end with a listed character; everything removed was listed |
| `Text.TrimLeftKeeps` | src/GoogleDriveAdapter.php:1328 | nothing is trimmed from a string that does not start with a listed character |
| `Text.TrimRightDrops` | src/GoogleDriveAdapter.php:1328 | trimming removes exactly a tail of listed characters that follows an unlisted one |
| `Text.LowerChar` | src/GoogleDriveAdapter.php:1329 | ASCII capitals are lowered; every other byte is unchanged |
| `Paths.SplitPath` | src/GoogleDriveAdapter.php:878-899 | "" and "/" give ("", root); any other path gives a leaf without `/` and a parent that is never empty when the root is not |
| `Paths.SplitPathShape` | src/GoogleDriveAdapter.php:878-899 | a path without `/` is a leaf under the root; otherwise the leaf is exactly the text after the last `/`; with `getParentId = false` the parent is the text before it, or the root when that text is empty |
| `Paths.SplitPathAtLastSlash` | src/GoogleDriveAdapter.php:885-898 | for a path with `/`: there are at least two pieces; the leaf is the last piece and the text after the last `/`; the text before that `/` is the other pieces joined; the parent is that text in the default mode and the second-to-last piece with `getParentId`, the root standing for an empty one |
| `Paths.SplitJoinedPath` | src/GoogleDriveAdapter.php:885-898 | joining a parent text and a slash-free leaf with `/`, then splitting with `getParentId = false`, gives both back |
| `Paths.LeafOfJoined` | src/GoogleDriveAdapter.php:885-898 | in the default mode, `dir/leaf` and a bare `leaf` both have leaf `leaf` |
| `Paths.ImmediateParentIsLeafOfPrefix` | src/GoogleDriveAdapter.php:888-896 | the default-mode parent is the last segment of the text before the last `/`, or the root when that segment is empty |
| `Paths.PrefixPath` | src/GoogleDriveAdapter.php:412 | prefixing a slash-free root gives the root, `/`, then the path without leading separators |
| `Paths.PrefixKeepsSplit` | src/GoogleDriveAdapter.php:412-421 | prefixing a relative path with the root does not change what `splitPath` returns in the default mode |
| `Paths.SplitFileExtension` | src/GoogleDriveAdapter.php:909-918 | a name without `.` has an empty extension and is its own filename; otherwise the extension holds no `.` and filename + "." + extension is the name |
| `Paths.NormalizeDirname` | src/GoogleDriveAdapter.php:1494-1497 | "." becomes ""; any other input is unchanged; so the result is never "." |
| `Paths.ReplaceChar` | src/GoogleDriveAdapter.php:1462 | the same length, with exactly the occurrences of one character replaced |
| `Paths.Dirname` | src/GoogleDriveAdapter.php:1457-1463 | "." becomes ""; any other dirname keeps its length with every backslash turned into `/` and every other character kept; so the result has no backslash and is never "." |
| `Drive.ChooseRoot` | src/GoogleDriveAdapter.php:179-205 | the root is never empty; a truthy root other than "root" is kept; otherwise a truthy Team Drive id replaces it; without one a falsy root becomes "root" |
| `Api.ApplyDefaultParams` | src/GoogleDriveAdapter.php:1392-1399 | explicit parameters always win; every other key comes from the command's defaults; a command without defaults passes its parameters through |
| `Api.ApplyDefaultParamsIdempotent` | src/GoogleDriveAdapter.php:1392-1399 | applying the defaults twice is the same as applying them once |
| `Api.ExportMime` | src/GoogleDriveAdapter.php:1106-1111 | a mapped MIME type uses its own export format; any other uses the "default" entry |
| `Api.UrlRoundTrip` | src/GoogleDriveAdapter.php:1112 | decoding the `rawurlencode` of a byte string gives it back |
| `Api.DownloadUrlChoice` | src/GoogleDriveAdapter.php:1101-1118 | every URL starts with the file's endpoint; native files get `?alt=media`; Google Apps documents get the export URL, whose query value decodes back to the chosen export format |
| `Metadata.NormaliseObject` | src/GoogleDriveAdapter.php:929-948 | the type is "dir" exactly for DIRMIME; the path is `dirname/id`, or the bare id for a falsy dirname; folders have size 0 and no MIME type; files have their MIME type and size (0 when absent); `hasdir` appears only for folders with useHasDir, false when uncached; filename and extension rebuild the name |
| `Metadata.NormalisedPathResolves` | src/GoogleDriveAdapter.php:929-935 | the reported path splits back, with `getParentId = false`, into the dirname (the root for a falsy one) and the object's id |
| `Sizing.Untrimmed` | src/GoogleDriveAdapter.php:1328-1330 | digits, signs and unit letters are neither trimmed nor skipped by the cast |
| `Sizing.LeadingDigits` | src/GoogleDriveAdapter.php:1330 | the longest all-digit prefix |
| `Sizing.ScaleByUnit` | src/GoogleDriveAdapter.php:1331-1340 | the fall-through switch multiplies by 1024 to the power of the unit's rank (t 4, g 3, m 2, k 1, otherwise 0) |
| `Sizing.GetIniBytes` | src/GoogleDriveAdapter.php:1320-1342 | a missing directive gives 0; an existing one is its value read as a size (trimmed, cast with PHP's `(int)`, scaled by its unit letter); without a directive name, `val` is read |
| `Sizing.Decimal` | src/GoogleDriveAdapter.php:1330 | the decimal rendering is a non-empty digit string |
| `Sizing.DecimalValue` | src/GoogleDriveAdapter.php:1330 | the digits of `n` denote `n` |
| `Sizing.LeadingDigitsOf` | src/GoogleDriveAdapter.php:1330 | the leading digits of a digit string followed by a non-digit are that digit string |
| `Sizing.LeadingNumberScientific` | src/GoogleDriveAdapter.php:1330 | digits followed by an exponent are read as the digits' value scaled by ten to that exponent, truncated |
| `Sizing.LeadingNumberFraction` | src/GoogleDriveAdapter.php:1330 | digits, a ".", fraction digits and an optional exponent are read as that decimal number scaled by the exponent, truncated toward zero |
| `Sizing.ScaleUp` | src/GoogleDriveAdapter.php:1330 | a non-negative exponent `k` multiplies the value by ten to the `k` |
| `Sizing.ScaleDown` | src/GoogleDriveAdapter.php:1330 | a negative exponent `-k` gives the truncated quotient `t`: `t * 10^k <= m < (t + 1) * 10^k` |
| `Sizing.DropFraction` | src/GoogleDriveAdapter.php:1330 | scaling the digits of a number and its fraction back by the fraction's length leaves the integer part |
| `Sizing.IntCastScientific` | src/GoogleDriveAdapter.php:1330 | `(int)` of `n`, "e", `k` and then no digit is `n` times ten to the `k` ("1e3" is 1000) |
| `Sizing.IntCastFraction` | src/GoogleDriveAdapter.php:1330 | `(int)` of `n`, ".", fraction digits and then no digit, "." or exponent is `n`: the fraction is truncated ("1.9" is 1) |
| `Sizing.IntCastBareExponent` | src/GoogleDriveAdapter.php:1330 | an "e" followed by no digit and no sign ends the number: `n`, "e" and such a rest is cast to `n` ("3eM" is 3) |
| `Sizing.IntCastOfDigits` | src/GoogleDriveAdapter.php:1330 | `(int)` of digits followed by neither more digits, a "." nor an exponent is the digits' value |
| `Sizing.IntCastOfNegative` | src/GoogleDriveAdapter.php:1330 | `(int)` of a minus sign and digits is the negated value |
| `Sizing.IniTrimDropsTail` | src/GoogleDriveAdapter.php:1328 | trimming removes exactly a trailing run of "b"/"B" |
| `Sizing.IniSizeOfDigits` | src/GoogleDriveAdapter.php:1328-1341 | a non-empty string of digits reads as the number it denotes |
| `Sizing.IniSizeOfNegativeDigits` | src/GoogleDriveAdapter.php:1328-1341 | a minus sign followed by digits reads as the negated number |
| `Sizing.IniSizeOfDecimal` | src/GoogleDriveAdapter.php:1328-1341 | a bare decimal size reads as that many bytes |
| `Sizing.IniSizeWithUnit` | src/GoogleDriveAdapter.php:1328-1341 | a decimal with a k/m/g/t unit in either case, then any "b"/"B", reads as the number times that power of 1024 |
| `Sizing.IniSizeExample` | src/GoogleDriveAdapter.php:1328-1341 | "128M" reads as 134217728 |
| `Sizing.IniSizeScientific` | src/GoogleDriveAdapter.php:1328-1341 | `n`, "e", `k` and a unit letter reads as `n` times ten to the `k` times the unit ("1e3M" is 1000 MiB) |
| `Sizing.IniSizeFraction` | src/GoogleDriveAdapter.php:1328-1341 | `n`, ".", fraction digits and a unit letter reads as `n` times the unit: the fraction is dropped before the unit scales ("1.5G" is 1 GiB) |
| `Sizing.IniSizeOfNegative` | src/GoogleDriveAdapter.php:1328-1341 | a negative decimal such as "-1" (no limit) reads as that number |
| `Sizing.DetectChunkSizeBytes` | src/GoogleDriveAdapter.php:1140-1158 | always a multiple of 256 KiB in [256 KiB, 100 MiB]; 100 MiB without a positive limit; otherwise at most a quarter of the free memory unless it is the 256 KiB floor, and the largest such multiple unless capped |
| `Sizing.ChunkSizeExamples` | src/GoogleDriveAdapter.php:1140-1158 | 1000 MiB limit with 800 MiB used gives 50 MiB; 2 GiB/1 GiB and 1 GiB/500 MiB hit the cap; 128/127 MiB gives 256 KiB |
| `Sizing.ChunkSizeUnlimited` | src/GoogleDriveAdapter.php:1140-1158 | a `memory_limit` of "-1" (no limit) gives the 100 MiB cap |
| `Requests.UploadParams` | src/GoogleDriveAdapter.php:1268-1273 | the parameters are always `fields`, plus `data` (the contents) and `uploadType` "media" exactly when the body is attached |
| `Requests.UploadRequest` | src/GoogleDriveAdapter.php:1252-1283 | with no source DriveFile, a create that names the file and its parent; otherwise an update of the source's id; the MIME type is the given one when truthy, else the guessed one; `fields` is always set; the body is present when attached, and otherwise only configured defaults are added |
| `Requests.EnsureDriveFileExistsAsWritten` | src/GoogleDriveAdapter.php:1250-1286 | as written, the body is attached exactly when the contents are truthy in PHP |
| `Requests.EnsureDriveFileExists` | src/GoogleDriveAdapter.php:1250-1286 | corrected: the body is attached whenever the contents are non-empty |
| `Requests.ZeroContentsDropped` | src/GoogleDriveAdapter.php:1270-1273 | as written, the contents "0" go out without a body; the corrected request carries them |
| `Requests.AsWrittenAgreesElsewhere` | src/GoogleDriveAdapter.php:1270-1273 | the as-written and corrected requests agree on every contents except "0" |
| `Streams.ByteStream.Read` | src/GoogleDriveAdapter.php:1303 | `fread` returns the next bytes, as many as the request, the stream's read limit and the remaining data allow, and advances the cursor by that many |
| `Streams.ByteStream.GetContents` | src/GoogleDriveAdapter.php:1205 | `stream_get_contents` returns the rest of the data and leaves the stream at its end |
| `Streams.ChunkEnd` | src/GoogleDriveAdapter.php:1296-1311 | one chunk reads at least one byte unless at the end; it stops short of `chunkSize` only at the end; it overshoots `chunkSize` by less than one read (at most `chunkSize + 8191` bytes) |
| `Streams.ChunkEndExact` | src/GoogleDriveAdapter.php:1300-1308 | with full 8192-byte reads and a chunk size that is a multiple of 8192, a chunk is exactly `chunkSize` bytes, or all that is left |
| `Streams.ReadFileChunk` | src/GoogleDriveAdapter.php:1296-1311 | the returned chunk is exactly the bytes from the old cursor to where `ChunkEnd` says the reads stop |
| `Upload.Flatten` | src/GoogleDriveAdapter.php:1218-1221 | no chunks glue to the empty string |
| `Upload.ChunkSizeIsWholeReads` | src/GoogleDriveAdapter.php:1140-1158 | every chunk size chosen is a positive multiple of the 8192-byte read |
| `Upload.UploadResourceToDrive` | src/GoogleDriveAdapter.php:1198-1225 | a stream that fits in one chunk goes up in one request with the rest of its bytes; a larger one sends a bodiless request, then non-empty chunks that glue to the bytes read, each but the last at least (with full reads exactly) the chunk size; the single request returns Drive's DriveFile, or nothing when it throws; the chunked upload returns the DriveFile exactly when Drive completes it and it started at the beginning of the stream, and a throwing `nextChunk` ends it after at most that call's chunk |
| `Upload.SendChunks` | src/GoogleDriveAdapter.php:1217-1224 | the chunk loop's chunks glue to the bytes read; the status is the DriveFile exactly when Drive completes the upload and the whole non-empty stream was sent from its start; without an exception the stream is read to its end; an exception on call `k` stops the loop after at most `k + 1` chunks, and before the end of the stream only after exactly that many; every chunk but the last is at least the chunk size |
| `Cache.CachedHit` | src/GoogleDriveAdapter.php:1049-1053 | a set by-id entry wins; otherwise the by-name entry under the parent; a cached null is no hit |
| `Cache.GetFileObject` | src/GoogleDriveAdapter.php:1045-1092 | a hit sends nothing and changes nothing; a miss sends `files.get` first; a non-404 failure returns null and caches nothing; otherwise the object, or null after a 404, is cached under the item id; the by-name cache is never touched; a failed fetch sends exactly the one `files.get`; a successful fetch sends `files.get` followed, with `checkDir` and `useHasDir`, by the one-item sub-folder `files.list`, and a folder whose listing came back gets its hasDir flag, under its own id, set to whether the listing was non-empty; every other hasDir flag is kept |
| `Cache.FoundIsRemembered` | src/GoogleDriveAdapter.php:1049-1091 | once an object is found, the next lookup of the path returns it from the cache with no request |
| `Cache.NotFoundIsAskedAgain` | src/GoogleDriveAdapter.php:1049-1091 | a 404 caches null, and the next lookup asks Drive again |
| `Cache.Cleared` | src/GoogleDriveAdapter.php:215-221 | `clearCache` empties the by-id and hasDir caches and keeps the by-name cache |
| `Cache.ClearedServesOnlyNames` | src/GoogleDriveAdapter.php:215-221 | after `clearCache`, a lookup is answered from the by-name cache when it knows the path, and goes to Drive otherwise |
| `Cache.CreateDirectory` | src/GoogleDriveAdapter.php:475-507 | always exactly one folder create under the parent; it succeeds exactly when Drive returns a DriveFile, which is then cached by name, by id, and with hasDir false; on failure nothing changes |
| `Cache.CreatedDirectoryIsFound` | src/GoogleDriveAdapter.php:481-485 | a created folder is found at its path with no request, even after `clearCache` |
| `Cache.NormaliseUploadedFile` | src/GoogleDriveAdapter.php:1168-1180 | nothing uploaded gives false, with no change; otherwise the upload is cached by id, the path is looked up (at most one request), and the upload is cached under the path's name exactly when the lookup found nothing; hasDir flags are unchanged; the result is the normalised upload under the path's dirname |
| `Cache.UploadedIsFound` | src/GoogleDriveAdapter.php:1176-1179 | after normalising, the path is answered from the cache with no request; it finds the upload when the lookup found nothing, and when the path ends in the upload's id |
| `Visibility.ScanPermissions` | src/GoogleDriveAdapter.php:797-808 | PUBLIC exactly when some permission has the configured type and role |
| `Visibility.RawVisibility` | src/GoogleDriveAdapter.php:793-809 | the lookup's caches and requests; no visibility exactly when nothing is found; PUBLIC exactly when the found file has a matching permission |
| `Visibility.WithPermissions` | src/GoogleDriveAdapter.php:819-869 | the cached object at a path gets the new permission list; which keys each cache holds is unchanged |
| `Visibility.LookupKeepsKeys` | src/GoogleDriveAdapter.php:1049-1091 | a lookup forgets no key, adds no name, and keeps every cached object unchanged |
| `Visibility.PublishKeepsKeys` | src/GoogleDriveAdapter.php:819-842 | publishing forgets no key, adds no name, and changes cached objects at most in their permissions |
| `Visibility.UnPublishKeepsKeys` | src/GoogleDriveAdapter.php:850-869 | unpublishing forgets no key, adds no name, and changes cached objects at most in their permissions |
| `Visibility.PublishAsWritten` | src/GoogleDriveAdapter.php:819-842 | as written, the caches end as the lookup left them, with the stale permissions |
| `Visibility.Publish` | src/GoogleDriveAdapter.php:819-842 | corrected: nothing found is false; an already public file is true with no permission request and no change; otherwise exactly one permission create for the file's id, true exactly when Drive creates it, and then the cached file at the path gains the new permission (the caches are as the lookup left them otherwise) |
| `Visibility.PublishedReadsPublic` | src/GoogleDriveAdapter.php:819-842 | after a successful publish, the path reads PUBLIC from the cache, and a second publish sends nothing |
| `Visibility.PublishAsWrittenStaysPrivate` | src/GoogleDriveAdapter.php:819-842 | as written, a published private file still reads PRIVATE, and publishing again creates the permission again |
| `Visibility.AnyoneReaders` | src/GoogleDriveAdapter.php:856-859 | exactly the "anyone"/"reader" permissions |
| `Visibility.Others` | src/GoogleDriveAdapter.php:856-859 | exactly the other permissions |
| `Visibility.DeleteRequests` | src/GoogleDriveAdapter.php:858 | one `permissions.delete` per permission, in order |
| `Visibility.AllDeletableCons` | src/GoogleDriveAdapter.php:856-865 | no deletion fails for a list exactly when none fails for its head and none for its tail |
| `Visibility.SweepAnyoneReaders` | src/GoogleDriveAdapter.php:855-865 | true exactly when no "anyone"/"reader" deletion throws; on failure the last request is the deletion that threw; every request deletes a permission of this file |
| `Visibility.SweepUnfold` | src/GoogleDriveAdapter.php:856-860 | what the first permission adds to the sweep, in front of the sweep of the rest |
| `Visibility.SweepSkips` | src/GoogleDriveAdapter.php:856-860 | a permission other than "anyone"/"reader" is kept, and "done so far plus the rest is the whole sweep" still holds one step on |
| `Visibility.SweepDeletes` | src/GoogleDriveAdapter.php:856-860 | an "anyone"/"reader" permission that deletes cleanly adds its request, and the same relation holds one step on |
| `Visibility.SweepStops` | src/GoogleDriveAdapter.php:856-860 | a deletion that throws ends the sweep: its request is the last, and it and every permission after it are kept |
| `Visibility.DeleteAnyoneReaders` | src/GoogleDriveAdapter.php:855-865 | the loop sends the sweep's requests, keeps its permissions and reports its result |
| `Visibility.SweepDeletesExactly` | src/GoogleDriveAdapter.php:855-865 | without failures, exactly the "anyone"/"reader" permissions are deleted, in order, and exactly the others are kept |
| `Visibility.UnPublishAsWritten` | src/GoogleDriveAdapter.php:850-869 | as written, the caches end as the lookup left them, with the stale permissions |
| `Visibility.UnPublish` | src/GoogleDriveAdapter.php:850-869 | corrected: nothing found is false; otherwise the lookup's requests and then the sweep's, true exactly when the sweep succeeds, and the cached file at the path keeps exactly the permissions the sweep did not delete |
| `Visibility.UnPublishedReadsPrivate` | src/GoogleDriveAdapter.php:850-869 | with the default "anyone"/"reader" permission, after a successful unpublish the path reads PRIVATE from the cache |
| `Visibility.UnPublishAsWrittenStaysPublic` | src/GoogleDriveAdapter.php:850-869 | as written, an unpublished public file still reads PUBLIC |
| `Commands.DeleteRequest` | src/GoogleDriveAdapter.php:430-456 | the request targets the file; it is a hard delete exactly for one parent with deleteAction "delete"; updates set nothing but `trashed`, which is true exactly for one parent; with several parents, `removeParents` is the path's parent |
| `Commands.Delete` | src/GoogleDriveAdapter.php:406-458 | "" and "/" are rejected with no request; a missing file or one without parents is an error after the lookup alone, with the lookup's caches; otherwise the one request of the delete policy follows the lookup; a throwing request keeps the lookup's caches, and success clears them; success exactly when the path is not the root, the prefixed path is found with parents, and the request does not throw; the by-name cache is always kept |
| `Commands.MultiParentOnlyDetached` | src/GoogleDriveAdapter.php:434-435 | a file with several parents is only detached from the path's parent, never trashed or deleted |
| `Commands.DeletedStillFoundByName` | src/GoogleDriveAdapter.php:458 | a deleted file known by name is still found at its path afterwards, with no request |
| `Commands.MatchVisibilityAsWritten` | src/GoogleDriveAdapter.php:395-399 | as written: true exactly when the source can be read; no key is forgotten, no name added, and every cached object is kept, changed at most in its permissions |
| `Commands.MatchVisibility` | src/GoogleDriveAdapter.php:395-399 | corrected: true exactly when the source can be read; no key is forgotten, no name added, and every cached object is kept, changed at most in its permissions |
| `Commands.CopyAsWritten` | src/GoogleDriveAdapter.php:372-401 | as written: the first request copies the source's leaf into the destination's parent under its leaf; a failed copy changes nothing and sends only that; a copy is cached by its id and by the destination name (up to its permissions), and the result is true exactly when the source can then be read |
| `Commands.Copy` | src/GoogleDriveAdapter.php:372-401 | corrected: the same first request, failure case, caching of the copy and result as the code as written, with the visibility step recording the new permissions |
| `Commands.CopyTargetLeaf` | src/GoogleDriveAdapter.php:390-392 | the path built for the copy ends in the copy's id |
| `Commands.MatchCarriesVisibility` | src/GoogleDriveAdapter.php:395-399 | corrected: with the default "anyone"/"reader" permission and working permission requests, once the target is cached and the source can be read, matching succeeds and the target then reads from the cache with the source's visibility |
| `Commands.CopyTakesSourceVisibility` | src/GoogleDriveAdapter.php:386-399 | corrected: with working permission requests, the copy reads from the cache with the source's visibility |
| `Commands.CopyAsWrittenStaysPrivate` | src/GoogleDriveAdapter.php:386-399 | as written: copying a public source whose copy comes back without permissions, with working permission requests, succeeds but leaves the copy reading PRIVATE from the cache |
| `Adapter.GoogleDriveAdapter.constructor` | src/GoogleDriveAdapter.php:177-205 | the configuration uses the chosen root and the `files.get` field list; the root is non-empty; the caches start empty |
| `Adapter.GoogleDriveAdapter.GetFileObject` | src/GoogleDriveAdapter.php:1045-1092 | the in-place lookup leaves the caches, returns the object and sends the requests that `Cache.GetFileObject` describes |
| `Adapter.GoogleDriveAdapter.ClearCache` | src/GoogleDriveAdapter.php:215-221 | the caches become `Cache.Cleared` of the old ones |
| `Adapter.GoogleDriveAdapter.CreateDirectory` | src/GoogleDriveAdapter.php:475-491 | the in-place update agrees with `Cache.CreateDirectory` |
| `Adapter.GoogleDriveAdapter.NormaliseUploadedFile` | src/GoogleDriveAdapter.php:1168-1180 | the in-place update agrees with `Cache.NormaliseUploadedFile` |
| `Adapter.GoogleDriveAdapter.GetRawVisibility` | src/GoogleDriveAdapter.php:793-809 | the lookup plus the permission scan agree with `Visibility.RawVisibility` |
| `Adapter.GoogleDriveAdapter.Publish` | src/GoogleDriveAdapter.php:819-842 | agrees with the corrected `Visibility.Publish` |
| `Adapter.GoogleDriveAdapter.UnPublish` | src/GoogleDriveAdapter.php:850-869 | agrees with the corrected `Visibility.UnPublish` |
| `Adapter.GoogleDriveAdapter.Delete` | src/GoogleDriveAdapter.php:406-458 | agrees with `Commands.Delete` |
| `Adapter.GoogleDriveAdapter.Copy` | src/GoogleDriveAdapter.php:372-401 | agrees with the corrected `Commands.Copy` |
| `Adapter.GoogleDriveAdapter.MatchVisibility` | src/GoogleDriveAdapter.php:395-399 | the visibility step of `copy` agrees with the corrected `Commands.MatchVisibility` |
| `Adapter.GoogleDriveAdapter.UploadString` | src/GoogleDriveAdapter.php:1121-1133 | looks the path up, sends the corrected `ensureDriveFileExists` request for it, and normalises Drive's answer; when the request throws, nothing is returned and the caches stay as the lookup left them |
| `Adapter.GoogleDriveAdapter.UploadStream` | src/GoogleDriveAdapter.php:1121-1133 | looks the path up, sends one request with the stream's rest or a bodiless one followed by chunks, and normalises the upload; there is an upload exactly when Drive does not throw and the stream fit in one request or was sent from its start; without one, nothing is returned and the caches stay as the lookup left them |

## Left out

- `readStream` (raw socket I/O, HTTP headers, redirects) and OAuth token handling are network code and are not modelled.
- Every Google API call is an oracle. The model records the requests; Drive's answers are parameters, so Drive's own behaviour is not modelled.
- Transport errors are modelled where the adapter handles them: the `files.get` error code, a failing listing, failing permission requests, and a failing delete or update in `delete`. Of the exceptions the adapter lets propagate, a failing `files.copy` is a copy with no DriveFile. A throwing `files.create`/`files.update` in an upload or a throwing `nextChunk` is an upload with no DriveFile that leaves the caches as the lookup left them (`Upload.UploadReply`). The exception object itself, and the `UnableToWriteFile` that `writeData` raises in its place, are not modelled.
- `guessMimeType` uses the finfo library. Its answer is the parameter `guessedMime`.
- PHP's `dirname` is a library call; its answer is the parameter `phpDirname`. `Util::dirname` is not part of this model. The adapter's own static `dirname` (`Paths.Dirname`) stands in for it.
- `PathPrefixer::prefixPath` is Flysystem code. `Paths.PrefixPath` follows its documented behaviour: the root without trailing separators, `/`, then the path without leading separators.
- `strtotime` is taken as done: `modifiedTime` is already an integer timestamp.
- `getItems`, `setHasDir`, `listContents` and the hasDir listing beyond the one-item query in `getFileObject` are left out. They are recursive remote paging.
- Option merging (`array_replace_recursive`) is left out; the constructor receives the merged values. The default parameters that `setTeamDriveId` adds are left out too; only its change of root is modelled. Through `enableTeamDriveSupport` (src/GoogleDriveAdapter.php:1409-1418) it adds `supportsTeamDrives` true to `files.copy`, `files.create`, `files.delete`, `files.trash`, `files.get`, `files.list`, `files.update` and `files.watch`. It also adds `corpora`, `includeTeamDriveItems` and `teamDriveId` to `files.list`. `array_merge_recursive` turns a key already set into a list, which string-valued parameters cannot hold. So with a Team Drive id, the modelled requests (`files.get` lookups, folder creation, uploads, copies and deletes) lack these keys unless the `defaultParams` passed to the constructor hold them.
- `additionalFields` copying in `normaliseObject` reads arbitrary object properties and is left out. The extra field does reach the `files.get` field list.
- The `setVisibility` step at the end of `normaliseUploadedFile` is left out, and so are the facade methods that only wrap the modelled ones: `visibility`, `setVisibility`, `move`, `write`, `writeStream`, `read`, `fileExists`, `directoryExists`, `deleteDirectory`, `mimeType`, `lastModified`, `fileSize` and `getMetadata`.
- `getMemoryUsedBytes`, `getFileSizeBytes` and `getMediaFileUpload` are runtime queries or library constructors. The memory figure and the stream's data are parameters; the file size is the stream's length.
- `Upload.SendChunks`: `nextChunk` is an oracle that answers false until Drive holds as many bytes as the stream's size, then the given DriveFile, unless `Upload.UploadReply` says which call throws.
- `feof` is modelled as "the cursor is at the end". PHP may report the end only after a read returns nothing; the bytes read are the same.
- `ByteStream.Read`: a stream returns at most a fixed number of bytes per read. A stream whose read sizes vary is not modelled.
- PHP integer overflow and the float `floor` in `detectChunkSizeBytes` are not modelled. Integers are unbounded, and the float division is exact for the sizes involved.
- Sizing.GetIniBytes: PHP's `(int)` reads a number with a fraction or an exponent as a double; the model computes it exactly and truncates toward zero, so it does not model double rounding beyond 15 significant digits, nor infinite or out-of-range values.
- `getIniBytes` on a string that trims to "" reads `$val[-1]`, which PHP answers with "" and a warning. The model takes the unit as "" and does not model the warning.
- `Cache.UploadedIsFound`: it does not state which object the path finds when the lookup hit an older cached object under another id.

## Findings

| source | as written | input that shows it | evidently intended | confidence | as-written member | corrected member |
|---|---|---|---|---|---|---|
| src/GoogleDriveAdapter.php:1270-1273 | the body is attached only when `$contents` is truthy, and PHP reads the string "0" as false | uploading a one-byte file whose contents are "0": the request goes out without `data`, so Drive stores an empty file | attach the body whenever it is non-empty; the chunked upload passes "" on purpose for a bodiless request | high (not executed) | `Requests.EnsureDriveFileExistsAsWritten`, shown by `Requests.ZeroContentsDropped` | `Requests.EnsureDriveFileExists` (used by the upload paths), with `Requests.ZeroContentsDropped` and `Requests.AsWrittenAgreesElsewhere` |
| src/GoogleDriveAdapter.php:819-842 | `publish` creates the permission on Drive but leaves the cached DriveFile with its old permissions | a file with no permissions, looked up and then published: `getRawVisibility` still answers PRIVATE from the cache, and a second `publish` creates the permission again | record the new permission on the cached object, so the cache keeps telling the truth about visibility | medium (not executed) | `Visibility.PublishAsWritten`, shown by `Visibility.PublishAsWrittenStaysPrivate` | `Visibility.Publish`, with `Visibility.PublishedReadsPublic` |
| src/GoogleDriveAdapter.php:395-399 | `copy` matches the copy's visibility through `publish`/`unPublish`, so the cached copy keeps the permissions Drive returned it with | copying a public source whose copy comes back without permissions: the permission is created on Drive, but `getRawVisibility` of the copy answers PRIVATE from the cache | the copy's cached DriveFile carries the permission it was given | medium (not executed) | `Commands.CopyAsWritten`, shown by `Commands.CopyAsWrittenStaysPrivate` | `Commands.Copy` (used by the class), with `Commands.CopyTakesSourceVisibility` and `Commands.MatchCarriesVisibility` |
| src/GoogleDriveAdapter.php:850-869 | `unPublish` deletes the permissions on Drive but leaves them on the cached DriveFile | a file whose only permission is "anyone"/"reader", unpublished: `getRawVisibility` still answers PUBLIC from the cache | drop the deleted permissions from the cached object | medium (not executed) | `Visibility.UnPublishAsWritten`, shown by `Visibility.UnPublishAsWrittenStaysPublic` | `Visibility.UnPublish`, with `Visibility.UnPublishedReadsPrivate` |
