# ocd-verify reconciliation, modelled in Dafny

`verify.py` compares two directory trees. It walks both, keys every file by
its path relative to its root, and splits the keys into files unique to the
first tree, files unique to the second and common files. It then computes
the MD5 checksum of both copies of each common file, in 4096-byte chunks.
A file whose checksums differ goes into `mismatches`. A file with exactly
one unreadable copy goes into `errors`. Finally it lists the unique files,
each with a checksum if one can be computed.

The model has four modules:

- `Common` (common.dfy): bytes, paths, `Option`, the 32-character `Checksum`, and duplicate-free sequences.
- `Digest` (digest.dfy): `calculate_md5`. The file object returned by `open(path, "rb")` is the class `BinaryFile`, whose `Read` advances a position. The `hashlib.md5()` object is the class `Md5Hasher`, whose `Update` extends what it has absorbed. The chunk loop is the method `HashChunks`. `CalculateMd5` is proved equal to the specification function `Md5Of`.
- `PathIndex` (path_index.dfy): `os.path.join`/`os.path.relpath` on walked paths, and the dictionary `{relpath(path, directory): path}`.
- `Reconcile` (reconcile.dfy): the three-way split in `main`, the branch taken in `report_comparisons`, the loops of `report_comparisons` and `report_unique_files`, and `main` itself. Each of these returns what it would print.

Three things stand for inputs the program reads from its environment:

- The walk's result is a sequence of paths.
- The filesystem at hashing time is a map from path to `FileNode`. A node is a regular file (its bytes, plus optionally the offset of a byte whose read fails) or an unreadable entry. A missing path means the file vanished.
- MD5 is a parameter `md5: seq<byte> -> Checksum`. Nothing about its internals is assumed.

A `hexdigest()` string is 32 characters long and never empty. So the test `md5sum1 and md5sum2` holds exactly when both checksums are present, and the model writes it that way.

One behaviour of the code is worth stating plainly, and the model keeps it. When neither copy of a common file can be hashed, `calculate_md5` returns `None` for both. `None == None` is true, so the `elif md5sum1 == md5sum2` branch counts the file as a match. The file is put in neither `errors` nor `mismatches`. A stricter comparison would report such a file as an error; verify.py does not. `Classify` and `BothUnreadableCountsAsMatch` state the behaviour as written.

## Model

| member | source | states |
|---|---|---|
| `Digest.Chunks` | verify.py:16 | the successive non-empty reads of the bytes, put back together, are exactly those bytes in order |
| `Digest.ChunkSizes` | verify.py:16 | every chunk holds 1 to 4096 bytes, and every chunk except the last holds exactly 4096 |
| `Digest.BinaryFile.Read` | verify.py:16 | `file.read(size)` returns the next bytes up to `size` and advances the position; it returns empty at end of file; it raises, leaving the position alone, when the faulty byte is among those it would return |
| `Digest.Open` | verify.py:14 | `open(path, "rb")` succeeds exactly when the path holds a regular file, giving a fresh file at position 0; otherwise it raises file-not-found or access-denied |
| `Digest.Md5Hasher.constructor` | verify.py:15 | a new hasher has absorbed nothing |
| `Digest.Md5Hasher.Update` | verify.py:17 | `update(chunk)` appends the chunk to the absorbed bytes and to the record of updates |
| `Digest.Md5Hasher.HexDigest` | verify.py:18 | `hexdigest()` is the MD5 of all the chunks passed to `update`, joined in the order they were passed |
| `Digest.HashChunks` | verify.py:16-17 | the read loop succeeds exactly when no unread byte is faulty; it then has fed every chunk of the unread bytes to the hasher, in order, and reached end of file |
| `Digest.CalculateMd5` | verify.py:12-25 | the result is the MD5 of the whole content when the file opens and every read succeeds, and `None` exactly when `open` or some `read` raised |
| `Digest.SameContentSameChecksum` | verify.py:12-21 | two readable files with the same bytes get the same checksum, whatever their paths |
| `PathIndex.Join` | verify.py:8 | for a `rest` that does not start with a separator, as every name `os.walk` lists, `os.path.join(root, rest)` is the root, a separator and `rest`; the joined path has the form the walk produces exactly when `rest` is non-empty and does not start with a separator |
| `PathIndex.RelPath` | verify.py:31 | the relative path, joined back onto the root, gives the walked path; it is non-empty and does not start with a separator |
| `PathIndex.RelPathOfJoin` | verify.py:31 | taking relative to the root a path joined onto the root gives back the relative part |
| `PathIndex.RelPathInjective` | verify.py:31-32 | two walked paths have the same relative path exactly when they are the same path |
| `PathIndex.RelIndex` | verify.py:31-32 | every walked path is stored under its relative path, and every entry maps a key to a walked path whose relative path is that key |
| `PathIndex.RelIndexSize` | verify.py:31-32 | the index has exactly one entry per walked file |
| `Reconcile.Split` | verify.py:34-36 | unique-to-1, unique-to-2 and common are pairwise disjoint; unique-to-1 plus common is the first index's key set; unique-to-2 plus common is the second's; their union is all keys |
| `Reconcile.SplitSizes` | verify.py:34-36 | the unique and common counts of each index add up to its number of entries |
| `Reconcile.SplitUnique` | verify.py:34-36 | any three disjoint sets that rebuild both key sets are the ones the split returns |
| `Reconcile.SplitSwap` | verify.py:34-36 | swapping the directories swaps the two unique sets exactly and leaves the common set unchanged |
| `Reconcile.Classify` | verify.py:50-57 | mismatch exactly when both checksums are present and differ; match exactly when they are equal, both absent included; error exactly when one is absent |
| `Reconcile.ClassifySymmetric` | verify.py:50-57 | swapping the two checksums does not change the outcome |
| `Reconcile.ReportComparisons` | verify.py:42-60 | no name occurs twice in either list; a name is in `mismatches` exactly when it is common and its copies' checksums are both present and differ; a name is in `errors` exactly when it is common and one checksum is absent |
| `Reconcile.ComparisonsReportedSwap` | verify.py:46-57 | lists that are a valid report for the two directories are also a valid report with the directories swapped, and the reverse holds too |
| `Reconcile.ReportedCountsBounded` | verify.py:45-57 | no common file is in both lists, and the two lists together are no longer than the set of common files |
| `Reconcile.BothUnreadableCountsAsMatch` | verify.py:53-54 | a common file with neither copy hashable lands in neither list |
| `Reconcile.OneUnreadableIsError` | verify.py:50-57 | a common file with exactly one copy hashable is in `errors` and not in `mismatches` |
| `Reconcile.DifferentContentIsMismatch` | verify.py:50-52 | a common file whose readable copies hash differently is in `mismatches` and not in `errors` |
| `Reconcile.ReportUniqueFiles` | verify.py:62-70 | every unique name is listed exactly once, with the checksum `calculate_md5` gives its path, `None` included |
| `Reconcile.Walked` | verify.py:28-29 | `set(...)` of the walked list holds exactly the walked paths, and has one element per entry when the walk lists each file once |
| `Reconcile.CompareDirectories` | verify.py:27-40 | the comparison lists are valid for the common keys of the two relative-path indexes, and each unique listing is valid for its directory's unique keys |
| `Reconcile.IdenticalTreesReportNothing` | verify.py:34-57 | with the same relative paths on both sides and byte-identical readable copies, nothing is unique and both lists are empty |

## Left out

- The directory walk `get_all_file_paths` (verify.py:7-10) is I/O. Its result is an input sequence. Every path in it must be the root, a `/`, then a non-empty rest, which is how `os.path.join` builds walked paths.
- Join: `os.path.join` returns an absolute second part unchanged (`os.path.join("/y", "/y/z")` is `"/y/z"`); `Join` always inserts a separator instead. verify.py:8 only joins bare names from `os.walk`, which never start with a separator, so no behaviour of the program is lost.
- `os.path.relpath` is modelled only for those walked paths: plain prefix stripping. The model covers no `..`, no symlink resolution, no other separator and no root with a trailing separator.
- The internals of `hashlib.md5` are a foreign library. MD5 is a function parameter, and the hasher's state is abstracted as the bytes it has absorbed.
- The filesystem is one snapshot for the whole run. A file that changes between the two `calculate_md5` calls for a pair is not modelled, apart from being unreadable or missing throughout.
- Exceptions other than a failed `open` or a failed `read` (for example, running out of memory) are not modelled. Every `Exception` raised by `open` or `read` becomes `None`, in the source and in the model.
- CalculateMd5: a failing `print` is not modelled. The success message (verify.py:19-20) is printed inside the `try`, so if it raises, the source returns `None` for a checksum it has computed. The error message (verify.py:23-24) is printed inside the handler, so if it raises, the exception escapes `calculate_md5` and ends the run. `KeyboardInterrupt` and `SystemExit` are not caught by `except Exception` (verify.py:22) and also end the run. The model returns the checksum in all of these cases.
- Open, HashChunks: a FIFO or an endless character device in the tree makes the source block in `open` (verify.py:14) or read forever without reaching `b""` (verify.py:16), so the run never finishes. The model treats every walked path as a finite regular file or an unreadable entry, and its read loop always ends.
- Closing the file when the `with` block exits is resource handling and is not modelled.
- Every `print`, including `print_results`, the "No … files" messages and the `output` flag of `calculate_md5`, is left out. The methods return the lists and records that would be printed.
- The order of `errors`, `mismatches` and the unique listings is not modelled. The source iterates over sets, whose order Python does not fix, so the contracts speak of membership and the absence of duplicates.
- The command-line checks and `sys.exit` (verify.py:82-92) are process control.
- Matched files are not recorded: the source keeps no list of them. So no separate count of matches is modelled.
- HashChunks: after a failed read it says nothing about the bytes already fed, because `calculate_md5` discards the hasher in that case.
