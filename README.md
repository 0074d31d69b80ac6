# proteome_exchange download core in Dafny

A verified model of the deterministic core of the `proteome_exchange` Python
package. The package fetches a ProteomeXchange dataset description and
bulk-downloads the files it lists.

Modules:

- `Downloads` (downloads.dfy): `Dataset.download`. It covers:
  - building the work list: filter polarity, destination paths, the `'.'` default;
  - the worker-count rule;
  - the `threads == 1` sequential path;
  - the queue path, where workers drain a pre-filled FIFO queue with one retry on `URLError`.
  `Dataset.download` is a method on the `Dataset` datatype. It is proved equal to the
  specification function `DownloadRun`. The properties of `DownloadRun` are proved as lemmas.
- `Transfer` (transfer.dfy): `DatasetFile.download`. The response is a class `Response`
  whose reads return a fixed sequence of results. The file handle is a class `Sink`
  holding a growable byte buffer. `CopyChunks` is the chunk loop, proved against `Copied`.
- `Records` (records.dfy): the `DatasetFile`, `DatasetIdentifier`, species, instrument and
  contact records, and the transforms that build them from XML attribute maps.
  - `parse_species_list`, `parse_instrument_list` and `parse_contacts_list` are imperative
    loops, proved against per-element specification functions.
  - Missing attributes are modelled as `KeyError`/`IndexError` results, never as preconditions.
- `Bundles` (bundle.dfy): `Bundle` as a class whose `slots` map is its instance dictionary.
  Every key goes through the `" "` → `"_"` normalisation.
- `Reprs` (repr.dfy): `simple_repr`. It covers truncation to `MAX_LEN_DISPLAY`, the field
  filter, sorting by name (a verified insertion sort), and the `Name(k=v, ...)` layout.
- `Text`, `Dicts`, `Wrappers`: the Python `str` and `dict` behaviour the core relies on.
  - `str.replace` scans left to right without overlaps.
  - `str.strip` uses the `str.isspace` set.
  - String `<=` is lexicographic by code point.
  - `d[k] = v` runs in sequence.
  - A loop stops at its first exception.

How the queue path is modelled:

- The queue is completely filled before any worker starts.
- `_work` takes items with a non-blocking `get`, so a worker leaves at the first `Empty`.
- A worker also ends when an exception escapes `_work`:
  - a first download that raised something other than `URLError`;
  - a retry that raised anything.
- How a download ends is a function `fetch` of the item and whether the call is the retry.
  So which items are taken does not depend on how the threads interleave. It is the shortest
  prefix of the queue that holds as many fatal items as there are workers, or the whole
  queue. `Drain` takes the items one worker step at a time.

Behaviour of the code that the model keeps as written:

- Only the queue path retries. On the `threads == 1` path the first exception propagates to
  the caller and the remaining files are not tried (`Downloads.SequentialPath`).
- On the queue path a download that fails for good ends its worker. When every worker has
  ended, the items still queued are never tried and `download` returns normally
  (`Downloads.StrandedWhenDownloadsFail`). With the default thread count there are enough
  workers, so this cannot happen (`Downloads.DefaultThreadsDrainAll`).
- A thread count of at most 0, or `None`, becomes `len(self)`. That counts every file of the
  dataset, including the ones the filter skips. `threads=None` therefore takes the queue path
  even for a single file.
- `DatasetFile.download` opens the target file before calling `urlopen`. When `urlopen`
  raises, the handle is left open (`Transfer.Download`).
- In `parse_species_list` the right-hand side `param['value']` is evaluated before the key.
  A `cvParam` lacking both attributes therefore raises `KeyError('value')`.

## Model

| member | source | states |
|---|---|---|
| Downloads.Dataset.Download | proteome_exchange/dataset.py:57-103 | `download(destination, filter, threads)` makes exactly the attempts, raises exactly the exception, starts exactly the workers and leaves exactly the queued items that `DownloadRun` describes |
| Downloads.DownloadInOrder | proteome_exchange/dataset.py:62-71 | the `threads == 1` loop downloads the non-skipped files in input order without retry and stops at the first exception, as `Sequential` over the work list says |
| Downloads.FillQueue | proteome_exchange/dataset.py:73-77 | the queue holds exactly the work list once filling is done, before any worker starts |
| Downloads.AttendItem | proteome_exchange/dataset.py:84-90 | the `try` block of `_work` makes the attempts of `Attend` and lets an exception escape exactly when `Escapes` holds |
| Downloads.Work | proteome_exchange/dataset.py:79-103 | the workers running `_work` make the attempts of `Drain`, and the queue keeps exactly the items `Drain` does not take |
| Downloads.WorkQueue.Put | proteome_exchange/dataset.py:77 | `put` appends the item at the back of the queue |
| Downloads.WorkQueue.GetNowait | proteome_exchange/dataset.py:82 | a non-blocking `get` removes and returns the front item, or reports `Empty` on an empty queue and changes nothing |
| Downloads.PathJoin | proteome_exchange/dataset.py:77 | `os.path.join`: an absolute name replaces the directory. A relative name follows the whole directory, and one `/` stands between them exactly when the directory is non-empty and does not already end in `/` |
| Downloads.Destination | proteome_exchange/dataset.py:60-61 | the destination directory defaults to `'.'` |
| Downloads.DefaultDestinationPath | proteome_exchange/dataset.py:60-61 | with the default destination a relative file name is written to `./name` |
| Downloads.WorkList | proteome_exchange/dataset.py:74-77 | the work list is never longer than the dataset; what it holds and in which order is stated by `Downloads.WorkListItems`, `Downloads.WorkListCount` and `Downloads.WorkListAppend` |
| Downloads.WorkListItems | proteome_exchange/dataset.py:74-77 | every queued item is a file the filter does not skip, paired with `join(destination, name)` |
| Downloads.WorkListCount | proteome_exchange/dataset.py:74-77 | a file is queued exactly as often as it occurs in the dataset when the filter does not skip it, and never when it does: no duplicates are added, none are lost |
| Downloads.WorkListAppend | proteome_exchange/dataset.py:74-77 | the work list is built in one pass in input order: the list for `a + b` is the list for `a` followed by the list for `b` |
| Downloads.WorkListUnfiltered | proteome_exchange/dataset.py:74-77 | without a filter every file is queued, at its own position |
| Downloads.FilterPolarity | proteome_exchange/dataset.py:75-76 | a file the filter returns true for is excluded and one it returns false for is kept |
| Downloads.WorkerCount | proteome_exchange/dataset.py:94-97 | the queue path starts `threads` workers. A `threads` of at most 0 (`None` counts as 0) is replaced by the number of all files, skipped ones included |
| Downloads.Attend | proteome_exchange/dataset.py:84-90 | one or two downloads per item; the second happens exactly when the first raised `URLError`, and is marked as the retry |
| Downloads.EscapesSpec | proteome_exchange/dataset.py:84-92 | an exception ends the worker exactly when the first download raised a non-`URLError`, or raised `URLError` and the retry raised too |
| Downloads.AttendAllFirsts | proteome_exchange/dataset.py:80-90 | every item taken gets exactly one first download, in queue order |
| Downloads.AttendAllRetries | proteome_exchange/dataset.py:84-90 | a retry comes right after the first download of the same item, and only when that download raised `URLError`; no item is downloaded more than twice |
| Downloads.Drain | proteome_exchange/dataset.py:79-100 | the workers take at most the whole queue; which prefix they take and what they do with it is stated by `Downloads.DrainSpec` |
| Downloads.DrainSpec | proteome_exchange/dataset.py:79-100 | the workers take a prefix of the queue, each item once and in FIFO order. They take the next item whenever a worker is alive, and stop before the end only when every worker has ended |
| Downloads.DrainComplete | proteome_exchange/dataset.py:94-100 | with at least as many workers as queued items every item is taken |
| Downloads.DrainAllEscaping | proteome_exchange/dataset.py:84-100 | when every download fails for good, only as many items as there are workers are taken |
| Downloads.Sequential | proteome_exchange/dataset.py:62-71 | the sequential path makes at most one attempt per item, and one for every item when nothing is raised |
| Downloads.SequentialSpec | proteome_exchange/dataset.py:62-71 | the sequential path downloads the items in order, once each, with no retry, and stops at the first exception, which it propagates. It reaches the end only when every download succeeded |
| Downloads.SequentialStable | proteome_exchange/dataset.py:63-71 | after a download raised, later files add no attempt |
| Downloads.DownloadRun | proteome_exchange/dataset.py:57-103 | only the `threads == 1` path raises; it starts no worker and leaves nothing queued, while the queue path starts `Downloads.WorkerCount` workers |
| Downloads.DownloadEmpty | proteome_exchange/dataset.py:57-103 | a dataset without files downloads nothing and raises nothing, and with the default thread count starts no worker |
| Downloads.SequentialPath | proteome_exchange/dataset.py:62-71 | with `threads == 1` the non-skipped files are attempted once each, in input order, without retry. Every attempt before the last succeeded. The call raises exactly when the last attempt failed, with its exception, and otherwise every file was attempted and succeeded |
| Downloads.QueuePath | proteome_exchange/dataset.py:72-103 | on the queue path nothing propagates, and the first downloads followed by the items left over are exactly the work list. Every retry follows a `URLError`. Items are left over only when every worker has ended |
| Downloads.DefaultThreadsDrainAll | proteome_exchange/dataset.py:94-103 | with `threads` `None` or at most 0 every queued file is attended to and none is left |
| Downloads.StrandedWhenDownloadsFail | proteome_exchange/dataset.py:84-103 | with `threads == k >= 2` and more than k files whose downloads all fail, only k files are tried. The rest stay queued and the call returns normally |
| Transfer.CopyChunks | proteome_exchange/dataset.py:210-215 | the copy loop writes exactly the concatenation of the chunks read, in order, up to the first empty read. The handle is closed at the end of the stream and when a read raises, and a read that raises is reported with its exception |
| Transfer.Copied | proteome_exchange/dataset.py:212-215 | the copy writes at most one chunk per read; `Transfer.CopiedSpec` states which chunks |
| Transfer.CopiedSpec | proteome_exchange/dataset.py:212-215 | the chunks written are the leading non-empty reads. The copy stops at the first empty or failing read, and fails exactly when that read raised |
| Transfer.CopiedWholeStream | proteome_exchange/dataset.py:212-215 | a stream of non-empty chunks is copied whole without failure |
| Transfer.CopyStopsAtEmptyChunk | proteome_exchange/dataset.py:213 | nothing after the first empty chunk is written |
| Transfer.ConcatBound | proteome_exchange/dataset.py:211-212 | with reads of at most 2**16 bytes, n chunks write at most n * 2**16 bytes |
| Transfer.Response.Read | proteome_exchange/dataset.py:212 | a read returns the next result of the stream, and no bytes once the stream is exhausted |
| Transfer.Sink.Write | proteome_exchange/dataset.py:214 | a write appends the chunk to what the handle holds |
| Transfer.TargetPath | proteome_exchange/dataset.py:203-204 | the target path defaults to the file's own name |
| Transfer.Download | proteome_exchange/dataset.py:202-215 | when `urlopen` raises, the error is reported and the handle is left open and untouched; otherwise the copy runs as in `CopyChunks` |
| Records.FileType | proteome_exchange/dataset.py:198 | the file type has no whitespace at either end |
| Records.FileTypeOfUriName | proteome_exchange/dataset.py:198 | for a name `n` without `URI` and without surrounding whitespace, the file type of `n + " URI"` is `n`: the `URI` and the space before it are removed |
| Records.FileTypeTrimsLabel | proteome_exchange/dataset.py:198 | for a name without `URI` the file type is the name with only surrounding whitespace removed |
| Records.FileTypeOfPlainLabel | proteome_exchange/dataset.py:198 | a name without `URI` and without surrounding whitespace is its own file type |
| Records.FileFromXml | proteome_exchange/dataset.py:193-200 | a `DatasetFile` is built exactly when `id`, `name`, a `cvParam` and its `name` and `value` are present, with those values. Otherwise the error names the first missing piece in argument order: `KeyError('id')`, `KeyError('name')`, the missing element, then the `cvParam`'s `KeyError('name')` and `KeyError('value')` |
| Records.RemoveUriSuffix | proteome_exchange/dataset.py:198 | removing `URI` from a name free of it followed by ` URI` leaves the name and the space |
| Records.IdentifierOf | proteome_exchange/dataset.py:107 | an identifier comes from the first child's `name` and `value`. A node without children raises `IndexError` |
| Records.ParseIdentifierList | proteome_exchange/dataset.py:105-107 | on success, one identifier per node, in order |
| Records.SpeciesKeyDropsTaxonomy | proteome_exchange/dataset.py:116 | a `"taxonomy: "` prefix is removed from a species key before the bundle normalises it |
| Records.SpeciesEntry | proteome_exchange/dataset.py:113-116 | a species entry exists exactly when every `cvParam` has a name and a value |
| Records.SpeciesEntrySpec | proteome_exchange/dataset.py:113-116 | the slots of a species entry are exactly the species keys of the names, and each holds the value of the last `cvParam` addressing it |
| Records.ParseSpeciesList | proteome_exchange/dataset.py:109-118 | the nested loops build the `Species` bundles element by element and stop at the first missing attribute |
| Records.InstrumentEntry | proteome_exchange/dataset.py:124-127 | an instrument entry exists exactly when the element has an `id` and every `cvParam` has a name; a missing `id` raises `KeyError('id')` |
| Records.InstrumentEntrySpec | proteome_exchange/dataset.py:124-127 | an instrument entry has exactly the slot `id` and the `cvParam` names. The `id` slot holds the element's id unless a `cvParam` named `id` overrides it. Each other slot holds the last value given for that name, `True` when that one has no `value` |
| Records.ParseInstrumentList | proteome_exchange/dataset.py:120-129 | the loops build the instrument dicts element by element and stop at the first missing attribute |
| Records.ContactEntry | proteome_exchange/dataset.py:135-137 | a contact entry exists exactly when every `cvParam` has a name |
| Records.ContactEntryKeys | proteome_exchange/dataset.py:135-137 | the slots of a contact entry are exactly the normalised `cvParam` names |
| Records.ContactEntrySpec | proteome_exchange/dataset.py:135-137 | reading a name back through the bundle gives the last value stored under its slot, `True` when that `cvParam` has no `value` |
| Records.ParseContactsList | proteome_exchange/dataset.py:131-139 | the loops build the `Contact` bundles element by element and stop at the first missing name |
| Records.FileFieldsSorted | proteome_exchange/dataset.py:187-191 | sorted by name, a `DatasetFile`'s attributes come in the order `file_type`, `id`, `name`, `uri` |
| Records.FileFieldsListed | proteome_exchange/dataset.py:187-191 | every attribute of a `DatasetFile` is shown in its repr |
| Records.FileReprText | proteome_exchange/dataset.py:185-191 | `repr` of a `DatasetFile` (the text a CLI filter pattern is matched against) lists the four attributes in name order, each truncated to 256 characters and quoted |
| Bundles.Bundle.constructor | proteome_exchange/utils.py:48-50 | `Bundle(**kwargs)` stores every keyword through the normalising `__setitem__`, in order |
| Bundles.Bundle.Set | proteome_exchange/utils.py:55-56 | `b[k] = v` stores `v` under `k` with spaces turned into underscores and changes no other slot |
| Bundles.Bundle.Get | proteome_exchange/utils.py:52-53 | `b[k]` returns the value in the normalised slot, and raises `KeyError` exactly when that slot is empty |
| Bundles.Normalise | proteome_exchange/utils.py:53-56 | a slot name is as long as its key and holds no space |
| Bundles.LookupAfterStore | proteome_exchange/utils.py:52-56 | after `b[k] = v`, reading any key of the same slot gives `v`, and every other key reads as before |
| Bundles.SameSlot | proteome_exchange/utils.py:53-56 | two keys address one slot exactly when they agree except where both hold a space or an underscore, so `"a b"` and `"a_b"` share a slot |
| Bundles.NormaliseCharwise | proteome_exchange/utils.py:53-56 | normalising replaces each space by an underscore, keeps every other character and the length, and leaves no space |
| Bundles.NormaliseIdempotent | proteome_exchange/utils.py:53-56 | a normalised key addresses its own slot |
| Bundles.KwargsReadBack | proteome_exchange/utils.py:48-53 | after `Bundle(**kwargs)` each keyword reads back its value unless a later keyword addresses the same slot |
| Bundles.KwargsMissing | proteome_exchange/utils.py:48-53 | after `Bundle(**kwargs)` a key whose slot no keyword addresses raises `KeyError` |
| Dicts.StoreAllLastWins | proteome_exchange/dataset.py:126-127 | in a run of `d[k] = v` assignments the last one to a key decides its value |
| Dicts.StoreAllUntouched | proteome_exchange/dataset.py:125-127 | a key no assignment writes keeps its value, or stays absent |
| Reprs.MaxLenDisplay | proteome_exchange/utils.py:14 | the display limit is the class's own `MAX_LEN_DISPLAY`, else 80 |
| Reprs.Shown | proteome_exchange/utils.py:20-22 | a string longer than the limit becomes its first `limit` characters followed by `...`; a shorter one is unchanged |
| Reprs.SortByNameSpec | proteome_exchange/utils.py:28-29 | sorting gives a permutation of the fields in non-decreasing name order |
| Reprs.ListedOnlyCount | proteome_exchange/utils.py:30 | the filter keeps every field that is public, not callable and not `None`, as often as it occurs, and drops every other field |
| Reprs.ListedOnlySorted | proteome_exchange/utils.py:28-30 | filtering keeps the name order |
| Reprs.ListedFieldsSpec | proteome_exchange/utils.py:26-30 | the listed fields are exactly the public, non-callable, non-`None` fields, sorted by name |
| Reprs.ListedFieldsNone | proteome_exchange/utils.py:26-30 | when no field is public, non-callable and not `None`, nothing is listed |
| Reprs.FormatValue | proteome_exchange/utils.py:16-24 | a string up to the limit is quoted whole, a longer one is cut to `limit` characters, followed by `...` and quoted; any other value shows its rendered text |
| Reprs.Entry | proteome_exchange/utils.py:28 | the object itself shows as `(...)` with no name; a string field as `name=` and its quoted, truncated text; any other field as `name=` and its rendered text |
| Reprs.Entries | proteome_exchange/utils.py:27-30 | one entry per listed field, in their order: `(...)` for the object itself, `name=` plus the quoted text cut to the limit for a string, `name=` plus the rendered text for any other value |
| Reprs.SimpleRepr | proteome_exchange/utils.py:5-37 | the repr is `ClassName(`, then the entries of `Reprs.Entries` for the fields `Reprs.ListedFieldsSpec` characterises, joined by `", "`, then `)`; it is `ClassName()` when nothing is listed |
| Text.Strip | proteome_exchange/dataset.py:198 | `str.strip` gives a slice of the input with only whitespace around it and no whitespace at either end |
| Text.Join | proteome_exchange/utils.py:37 | `sep.join(parts)` starts with the first part and ends with the last |
| Text.JoinSnoc | proteome_exchange/utils.py:37 | joining one more part appends the separator and that part |
| Text.Replace | proteome_exchange/dataset.py:198 | `str.replace` never lengthens a string when the replacement is no longer than the pattern, and replacing a pattern by itself changes nothing |
| Text.ReplaceAbsent | proteome_exchange/dataset.py:198 | `str.replace` leaves a string without the pattern unchanged |
| Text.ReplaceAfterPrefix | proteome_exchange/dataset.py:198 | `str.replace` keeps a prefix in which no occurrence starts and replaces in the rest only |
| Text.StripTrailingSpace | proteome_exchange/dataset.py:198 | stripping a text without surrounding whitespace followed by a space gives the text back |
| Text.LexLeTotal | proteome_exchange/utils.py:28-29 | Python string order is total, so the sort has a defined order |

## Left out

- The threads, their interleavings, and the `Queue`'s locking and blocking `get` are not
  modelled; `Downloads.WorkQueue` models `put` and `get(False)` only. The drain is
  sequential, and the attempts of the queue path are listed in queue order, not in time
  order. The bound on how many downloads run at once is therefore not stated.
- The `3.0` timeout of the non-blocking `get` has no effect and is left out.
- `time.sleep(2)` before the retry and all logging are left out; neither changes what is
  downloaded.
- `urlopen`, `open(..., 'wb')` and the socket are left out. A download's outcome is the
  parameter `fetch` of `Dataset.Download`. `Transfer` models one call, given an open handle
  and what `urlopen` returned.
- Opening the target file can itself raise. That outcome is among those `fetch` returns and
  is not a separate path in `Transfer.Download`.
- Whether `destination` already has a `write` method (`dataset.py:205-208`) is decided by
  the caller of `Transfer.Download`, which passes the handle.
- `Dataset.from_xml`, `DatasetSummary.from_xml` and `Dataset.get` are left out. They are
  XML and HTTP plumbing through `lxml` and `urlopen`.
- `lxml`'s `find`/`findall` are left out. Elements are given as attribute maps with their
  children's attribute maps, and `find(".//cvParam")` as an optional attribute map.
- `Dataset` keeps only its identifier and files; `summary`, `species`, `instruments` and
  `contacts` are not carried.
- `dataset_files=None` is not modelled: the files are always a sequence.
- Float formatting (`"%0.4f"`), `pprint.pformat` and Python's `repr` of a string are left
  out. Non-string values carry their rendered text, and string quoting is the parameter
  `quote`.
- The `__slots__` branch of `simple_repr` (`utils.py:31-35`) is covered only when every slot
  is set: the model takes the attributes as a list of fields. In that branch `getattr` runs
  for every slot before the filter, so an unset slot raises `AttributeError`; that error
  path is not modelled. No `Base` subclass defines `__slots__`.
- `proteome_exchange/tool.py` (the `click` CLI, regex compilation, `os.makedirs`,
  `cpu_count`) and `setup.py` are not part of this model.
- Paths follow POSIX `os.path.join`; Windows joining is left out.
- The Python 2 imports (`urllib2`, `Queue`) are left out; Python 3 semantics are modelled.
- Transfer.CopyChunks: `fh.write` is taken never to raise (`dataset.py:214`), so the
  write-error exit (a partial file, the handle closed by `with fh:`, the exception
  propagated out of `download`) is not modelled.
- Downloads.Drain: its own contract only bounds the number of items taken; what it takes
  is stated by `Downloads.DrainSpec`, `Downloads.DrainComplete` and
  `Downloads.DrainAllEscaping`.
