# waliki page store, modelled in Dafny

This project models the content core of waliki, a file-backed wiki:

- **`Page`** (waliki/wiki.py) keeps a page's path, URL, markup class, raw content, metadata, body and rendered HTML. It loads itself from a file. It processes the file into HTML, a body and metadata. It writes its metadata header and body back to disk.
- **`Wiki`** (waliki/wiki.py) maps URLs to page files under a root directory. It gets, creates, moves and deletes pages. It walks the directory tree into an index sorted by title, groups the index by tag, filters it by tag and searches it with a regular expression.
- **The markup classes** (waliki/markup.py): the file extension and metadata-line template of each, the split of a page text at its first blank line, the reStructuredText metadata parser, and the link targets appended for unknown reference names.

## Modules

| file | module | what it holds |
|---|---|---|
| base.dfy | `Base` | `Option`, `Result`, `Outcome`, the exceptions the core raises. Also `Env`, the record of foreign functions: the Markdown and docutils renderers, the regular-expression engine, `unicode.lower`, `urlify` and `os.linesep`. |
| text.dfy | `Text` | Python 2 string operations: `strip`, `split`, `split(sep, 1)`, `replace`, `join`, `%` formatting. |
| escape.dfy | `Escape` | Python 2's `repr` of a unicode string, which `%s` of a list prints for each item, and the reading of such a literal back. |
| ordering.dfy | `Ordering` | Python's string order, and a stable sort by keys (`sorted(..., key=...)`). The sort is a permutation of indices, so page objects and their value snapshots are reordered alike. |
| passes.dfy | `Passes` | `Collect` and `Select`: a pass over a list that stops at the first exception, as the source's `for` loops do. |
| store.dfy | `Store` | The file system as a tree of named directories and files, in listing order. It has `open`/`read`, `os.listdir`, `os.remove`, `open(..., 'w')`, `os.makedirs` and `os.rename`, each with a frame lemma. `FileSystem` is the mutable object holding the tree. |
| markup.dfy | `Markup` | `Markup`, `Markdown`, `RestructuredText`: `EXTENSION`, `META_LINE`, `render_meta`, `process`, `_parse_meta`, `get_autolinks`. |
| pages.dfy | `Pages` | The `Page` class and the save/load round trip. |
| tagging.dfy | `Tagging` | The counting behind `get_tags`: which tags appear and how often each page is listed under each. |
| wiki.dfy | `Wikis` | The `Wiki` class, with the value-level specifications its methods are proved against. |

A `Page` is a Dafny `class` whose methods update its fields, as the Python object does. Its value view is `Snapshot`. Each `Wiki` method is proved against a function over snapshots: `Walked`, `Indexed`, `TagMap`, `ByTag`, `Searched`. The lemmas state what the source promises about those functions. The predicate `Wiki.Holds(pages, snaps)` ties the returned `Page` objects to the snapshots, one by one.

Behaviour of the code worth knowing:

- `search` filters the result of `index()` (wiki.py:190), so it returns pages in index order, which is title order.
- A nested page's URL is the first directory, a slash and the file name: the directories in between are dropped (wiki.py:147). See `Wikis.NestedUrl`. Two files `a/x/p.rst` and `a/y/p.rst` therefore get the same URL `a/p`; see `Wikis.SharedUrl`.
- Ties in the title sort keep walk order, because `sorted` is stable.
- The tags `get_tags` reports form a dictionary with no order.
- A page appears under a tag once per *distinct raw segment* that strips to the tag. `"a, b, a"` lists the page twice under `a`, because `"a"` and `" a"` are distinct segments. `"a,a"` lists it once, because the two segments are the same string.
- Metadata round-trips only for lower-case, whitespace-trimmed keys and single-line string values. `_parse_meta` lower-cases and strips keys. A list value is written as its Python `repr`, and reads back as that string. That `repr` escapes every character outside printable ASCII: `Café` in a list is written `[u'Caf\xe9']` (`Pages.CafeWritten`).
- A page saved with no metadata is written as a newline followed by the body. `process` then splits at the first blank line inside the body, or raises `ValueError` when the body has none; see `Pages.EmptyMetaLosesBody`.
- reStructuredText `process` returns only the keys its header holds; nothing adds `title` or `tags` (see `Markup.NoHeaderNoKeys`).
- `delete` of a URL naming a directory raises `OSError`: `os.path.exists` holds, and `os.remove` fails.
- `get_bare` returns `False` for an existing page. The model returns `None`.

## Model

| member | source | states |
|---|---|---|
| Text.StripLeft | waliki/wiki.py:172 | The result is a suffix of the input. What was removed is all whitespace, and the result does not start with whitespace. |
| Text.StripRight | waliki/wiki.py:172 | The result is a prefix of the input. What was removed is all whitespace, and the result does not end with whitespace. |
| Text.StripEmpty | waliki/markup.py:178 | `line.strip() == ''` exactly when the line is all whitespace. |
| Text.Split | waliki/wiki.py:170 | `split(c)` yields at least one piece. No piece contains `c`, and joining the pieces with `c` gives back the input. |
| Text.SplitJoin | waliki/markup.py:138 | Splitting lines joined by `\n` gives back the lines, when none contains `\n`. |
| Text.SplitOnce | waliki/markup.py:137 | `split(sep, 1)` fails exactly when `sep` does not occur. Otherwise the input is head + sep + tail, with no earlier occurrence of `sep` in the head. |
| Text.FindFrom | waliki/markup.py:137 | The first occurrence of a pattern at or after a position, or none at all. |
| Text.ReplaceAbsent | waliki/wiki.py:151 | `replace` of a pattern that does not occur leaves the string unchanged. |
| Text.ReplaceClears | waliki/wiki.py:151 | After `replace(c, rep)`, with `c` not in `rep`, no `c` is left. |
| Text.Universal | waliki/wiki.py:27 | Reading with mode `'rU'` leaves no `\r` in the text and never makes it longer. |
| Text.UniversalReplaces | waliki/wiki.py:27 | The universal-newline reading is the same as replacing every `\r\n` by `\n` and then every remaining `\r` by `\n`. |
| Text.UniversalKeeps | waliki/wiki.py:27 | Text without `\r` is read unchanged. |
| Text.UniversalTwice | waliki/wiki.py:27 | Reading what was already read changes nothing. |
| Text.UniversalAppend | waliki/wiki.py:27 | Two pieces of text read as the two readings one after the other, unless the first piece ends in `\r` (whose `\n` may follow in the second). |
| Text.FormatTwo | waliki/markup.py:23 | `template % (a, b)` with two `%s` holes puts `a` and `b` into them. |
| Text.JoinNoBlankLine | waliki/markup.py:137 | Non-empty header lines without newlines, joined by `\n`, neither start nor end with a newline and contain no blank line. |
| Ordering.BelowTotal | waliki/wiki.py:159 | Python's string comparison is total. |
| Ordering.BelowTransitive | waliki/wiki.py:159 | Python's string comparison is transitive. |
| Ordering.SortedOrder | waliki/wiki.py:159 | The stable sort order is a permutation of the indices, and it puts the keys in order, ties by position. |
| Ordering.SortByKeysPermutes | waliki/wiki.py:159 | `sorted(xs, key=...)` is a permutation of `xs`. |
| Ordering.SortByKeysOfSorted | waliki/wiki.py:187 | Sorting a list whose keys are already in order leaves it unchanged. |
| Ordering.SortedKeys | waliki/wiki.py:42 | `sorted(meta.keys())` lists each key exactly once. |
| Ordering.SortedKeysAscending | waliki/wiki.py:42 | `sorted(meta.keys())` is strictly ascending. |
| Passes.SelectExactly | waliki/wiki.py:183-186 | What the filtering loop keeps is a subsequence of the list. It holds every element that passes, and each element it holds is from the list. |
| Passes.CollectThen | waliki/wiki.py:138-141 | A loop over two listings, one after the other, that raises in neither collects the values of the first, then those of the second. |
| Passes.FirstFailure | waliki/wiki.py:138-141 | A loop over a listing raises the exception of the first item that fails, whatever follows it. |
| Passes.CollectErrAfter | waliki/wiki.py:138-141 | A loop over two listings that gets through the first raises what the loop over the second raises. |
| Passes.CollectErrThen | waliki/wiki.py:138-141 | A loop that raises within the first listing raises the same exception over both. |
| Store.PathJoinAppend | waliki/wiki.py:123-127 | `join(root, url) + EXTENSION` is the same path as `join(root, url + EXTENSION)`. |
| Store.ReadText | waliki/wiki.py:27-28 | `open(path, 'rU').read()` succeeds exactly when the path names a file. It yields that file's text with each `\r\n` and each lone `\r` read as `\n`. |
| Store.WrittenReads | waliki/wiki.py:41-49 | A file just written reads back as the text written, with universal newlines. |
| Store.ListDir | waliki/wiki.py:138 | `os.listdir` succeeds exactly when the path names a directory, and yields that directory's entries in listing order. |
| Store.NamedListed | waliki/wiki.py:138-140 | In a well-formed listing (`Store.WellFormed`: non-empty, slash-free, distinct names), joining a listed name to its directory finds that very entry. |
| Store.RemoveFile | waliki/wiki.py:133 | `os.remove` succeeds exactly when the path names a file; otherwise it raises `OSError`. |
| Store.RemoveFileFrame | waliki/wiki.py:133 | After `os.remove` the path names nothing, and every other path names what it did before. |
| Store.WriteFile | waliki/wiki.py:41-47 | `open(path, 'w')` succeeds exactly when the path is not a directory and its parent is one; otherwise it raises `IOError`. |
| Store.WriteFileFrame | waliki/wiki.py:41-47 | After the write the path names a file holding the text, and every other path is unchanged. |
| Store.MakeAllDirs | waliki/wiki.py:39-40 | `os.makedirs` succeeds exactly when the path is missing and no file lies on the way; otherwise it raises `OSError`. |
| Store.MakeAllDirsFrame | waliki/wiki.py:39-40 | After `os.makedirs` every prefix of the path is a directory, and nothing else changes. |
| Store.MoveEntry | waliki/wiki.py:124-127 | `os.rename` succeeds exactly when the source exists, the destination does not, the destination's parent is a directory, and the source is not a directory above the destination; otherwise it raises `OSError`. |
| Store.MoveEntryFrame | waliki/wiki.py:124-127 | Renaming a file puts it at the destination, leaves nothing at the source, and changes no other path. |
| Store.PutFileFrame | waliki/wiki.py:41-47 | Putting a file into its directory, where no directory of that name stands, sets exactly that path to the file's text. |
| Store.FileSystem.Remove | waliki/wiki.py:133 | The tree after `os.remove`, or an `OSError` with the tree unchanged. |
| Store.FileSystem.Write | waliki/wiki.py:41-47 | The tree after the write, or an `IOError` with the tree unchanged. |
| Store.FileSystem.MakeDirs | waliki/wiki.py:39-40 | The tree after `os.makedirs`, or an `OSError` with the tree unchanged. |
| Store.FileSystem.Rename | waliki/wiki.py:124-127 | The tree after `os.rename`, or an `OSError` with the tree unchanged. |
| Markup.Extension | waliki/markup.py:15 | `EXTENSION` (`.txt`, `.md` at line 40, `.rst` at line 83) starts with a dot, has a stem, and holds no `/`. |
| Markup.RenderMeta | waliki/markup.py:21-23 | `render_meta(key, value)` is `key: value` and a newline, with a leading `.. ` for reStructuredText (line 79). |
| Markup.SplitHeader | waliki/markup.py:137 | The split at the first blank line fails with `ValueError` exactly when there is none. Otherwise the text is header + blank line + body, and the blank line is the first. |
| Markup.SplitHeaderAt | waliki/markup.py:137 | A text built as header + blank line + body, with no earlier blank line, splits into that header and body. |
| Markup.SplitAfterLines | waliki/markup.py:137-138 | Header lines that are non-empty and free of newlines come back whole from the split, whatever the body holds. |
| Markup.FirstLine | waliki/markup.py:174 | `.*` stops at the first newline. |
| Markup.MatchMetaLine | waliki/markup.py:174 | `META_RE.match` succeeds only on `..` followed by whitespace. The key is the shortest text before `: `, the value runs to the end of the line, and neither holds a newline. |
| Markup.AccumulateValues | waliki/markup.py:184-187 | A key is in the parsed metadata exactly when some line gave it a value, and its list holds those values in line order. |
| Markup.MetaOfNonEmpty | waliki/markup.py:184-187 | Every parsed key has at least one value. |
| Markup.ParseMeta | waliki/markup.py:172-188 | The parsing loop computes the metadata the per-line specification describes. |
| Markup.RenderedLineEntry | waliki/markup.py:174-183 | A line written by `render_meta` for a lower-case, trimmed key and a trimmed single-line value parses back to that key and value. This holds with or without its newline. |
| Markup.MetaOfRendered | waliki/markup.py:172-188 | Header lines rendered from distinct keys parse back to exactly those keys, each with its one value. |
| Markup.AutolinkLine | waliki/markup.py:142 | Each autolink line is `.. _ref: /` followed by `urlify(ref)`. |
| Markup.AutolinksLines | waliki/markup.py:141-144 | `get_autolinks` is a blank line followed by one target line per reference, in order. |
| Markup.Process | waliki/markup.py:117-139 | `process` raises `NotImplementedError` for the base class. Otherwise it succeeds exactly when the text has a blank line, else it raises `ValueError`. The body is what follows the first blank line. Markdown takes its HTML and metadata from python-markdown. reStructuredText takes its HTML from docutils, re-rendered with link targets for unknown names, and its metadata is `_parse_meta` of the header lines, with no empty value list. |
| Markup.HeaderEnd | waliki/markup.py:137 | The header the split yields, with its final newline, contains no blank line. |
| Markup.NoHeaderNoKeys | waliki/markup.py:136-139 | reStructuredText metadata holds only the keys of the header lines. A text that starts with a blank line gets empty metadata, with no `title` or `tags` key. The docstring of `process` (markup.py:25-29) promises at least those two keys. |
| Pages.Item | waliki/wiki.py:56-60 | `page[name]` raises `KeyError` exactly when the key is missing. It yields the sole element of a one-element list, and any other value as stored. |
| Pages.Reprs | waliki/wiki.py:44 | `%s` of a list of unicode strings prints each item as its `repr`. |
| Pages.ReprOne | waliki/wiki.py:44 | A one-element list is written as the item's `repr` in brackets. That is `[u'item']` exactly when every character of the item is printable ASCII other than `'` and `\`. |
| Pages.ListPrinted | waliki/wiki.py:44 | A list value prints as printable ASCII only, so never with a newline or `\r`, whatever its items hold. |
| Pages.CafeWritten | waliki/wiki.py:44 | The list `[u'Café']` is written as `[u'Caf\xe9']`. |
| Escape.ReprPrintable | waliki/wiki.py:44 | `repr` of a unicode string writes only printable ASCII: no newline and no character above U+007E. |
| Escape.ReprBack | waliki/wiki.py:44 | Reading back the literal `repr` writes, between its quotes, gives the string itself. |
| Escape.EscapedBack | waliki/wiki.py:44 | Unescaping inverts the escaping of any string, inside either quote. |
| Escape.EscapeCharBack | waliki/wiki.py:44 | The escape of one character reads back as that character and is consumed whole, whatever follows it. |
| Escape.HexBack | waliki/wiki.py:44 | The hexadecimal digits of an escape read back as the character's code. |
| Escape.ReprPlain | waliki/wiki.py:44 | `repr(s)` is `u'` + `s` + `'` exactly when every character of `s` is printable ASCII other than `'` and `\`. |
| Escape.ReprCafe | waliki/wiki.py:44 | `repr(u'Café')` is `u'Caf\xe9'`. |
| Pages.Source | waliki/wiki.py:25-28 | `load` uses given non-empty content as it is. Otherwise it reads the file: it succeeds exactly when the path is a file, with that file's text read in universal-newline mode, and raises `IOError` otherwise. |
| Pages.Rendering | waliki/wiki.py:31-32 | `render` before any content is loaded raises `AttributeError`. Otherwise it is `process` of the loaded text, with its result or its exception. |
| Pages.Opened | waliki/wiki.py:16-23 | Opening a page succeeds only on a file whose text `process` accepts. The page keeps its path and URL, holds the file's text, read in universal-newline mode, as content, and its metadata, body and HTML are those `process` returns for that text. A non-file raises `IOError`; a text `process` rejects raises `process`'s exception. |
| Pages.Page.Bare | waliki/wiki.py:16-21 | A page made with `new=True` has its path, URL and markup, empty metadata, and no content, body or HTML. |
| Pages.Page.Load | waliki/wiki.py:25-29 | `load` sets the content from the given text or from the file, or raises `IOError` and changes nothing. Metadata, body and HTML are untouched. |
| Pages.Page.Render | waliki/wiki.py:31-32 | `render` sets HTML, body and metadata from `process`, or raises its error and changes nothing. |
| Pages.Page.SetItem | waliki/wiki.py:62-63 | `page[name] = value` stores the value under the key and changes nothing else. |
| Pages.Page.SetTitle | waliki/wiki.py:81-83 | After the title setter, `page.title` reads back the value. |
| Pages.Page.SetTags | waliki/wiki.py:89-91 | After the tags setter, `page.tags` reads back the value. |
| Pages.Page.HeaderText | waliki/wiki.py:42-45 | The loop writes one `META_LINE` per key, in sorted key order. |
| Pages.Page.WriteOut | waliki/wiki.py:41-50 | Writing either raises `IOError` with the tree unchanged, or leaves the file holding the header, a newline and the body with `\r\n` replaced. When `body` was never set, the file keeps the header and newline written before the `AttributeError`. With `update`, the page holds the written text, read back in universal-newline mode, and is rendered from it. |
| Pages.Page.Save | waliki/wiki.py:37-50 | `save` creates the missing folder when the folder does not exist, or raises `OSError`. It then writes as `WriteOut` states. |
| Pages.HeaderLines | waliki/wiki.py:42-45 | One header line per key, each being the `META_LINE` of that key without its newline. |
| Pages.MetaBlockLines | waliki/wiki.py:42-46 | The written metadata block is its lines joined by newlines, plus a final newline. |
| Pages.BlockSplits | waliki/wiki.py:42-47 | A saved page text splits at the blank line that ends its metadata block. |
| Pages.SavedSplits | waliki/wiki.py:41-47 | Saving non-empty metadata whose keys and printed values hold no newline (`LineSafe`), then splitting, gives back the header lines and the body with `\r\n` replaced by `os.linesep`. |
| Pages.MetaBlockReturnFree | waliki/wiki.py:42-45 | Keys and printed values without `\r` (`ReturnFree`) give header lines without `\r`. |
| Pages.ReadWritten | waliki/wiki.py:27-49 | The file `save` wrote, read back with `'rU'`, is the header and newline as written, then the body as universal-newline mode reads it. |
| Pages.ReloadSplits | waliki/wiki.py:27-50 | Saving non-empty metadata that is `LineSafe` and `ReturnFree`, reading the file back and splitting gives the header lines and the body as written and read. |
| Pages.SaveLoadBody | waliki/wiki.py:37-50 | After `save` of non-empty metadata that is `LineSafe` and `ReturnFree`, `load` and `process` succeed and yield the saved body with `\r\n` replaced by `os.linesep` and then read with universal newlines. |
| Pages.BodyWithoutReturns | waliki/wiki.py:27-47 | A body without `\r` survives the write and the reading exactly, whatever `os.linesep` is. |
| Pages.WindowsLineEndings | waliki/wiki.py:27 | A file `"x\r\n\r\nb"` has no blank line as raw text, so `process` of it would raise `ValueError`. Read with `'rU'` it splits into the header `"x"` and the body `"b"`. |
| Pages.EmptyMetaLosesBody | waliki/wiki.py:42-50 | With no metadata the file is a newline then the body, and `process` of the file read back splits inside the body: the body `"a\n\nb"` is read back as `"b"`. |
| Pages.SaveLoadMeta | waliki/wiki.py:37-50 | After `save` of reStructuredText metadata with fitting keys and string values, none holding `\r`, `load` and `process` yield the same key set, and `page[key]` reads back every value. |
| Pages.ItemsBack | waliki/wiki.py:56-60 | One-value lists from `process` read back through `page[key]` as the saved strings. |
| Pages.MetaBlockPrinted | waliki/wiki.py:42-45 | Two metadata maps whose values print alike write the same header. |
| Pages.WrittenPrinted | waliki/wiki.py:43-44 | Writing a value is the same as writing its printed form. |
| Pages.ListValueResaved | waliki/wiki.py:42-50 | A list value saved, loaded and processed again reads back as the string of its `repr`, not as the list. |
| Tagging.Listed | waliki/wiki.py:169-178 | The page positions listed under a tag are valid positions. |
| Tagging.ListedNext | waliki/wiki.py:169-178 | A further page adds its position once per distinct segment of its tags that strips to the tag. |
| Tagging.PendingAdd | waliki/wiki.py:171-178 | A segment that strips to the tag appends the page once more; any other segment changes nothing. |
| Tagging.HitsPositive | waliki/wiki.py:170-172 | A page counts under a tag exactly when one of its segments strips to it. |
| Tagging.ListedNonEmpty | waliki/wiki.py:169-178 | The listing under a tag is non-empty exactly when some page has a segment that strips to it. |
| Tagging.TallyKeys | waliki/wiki.py:173-178 | Empty tags are skipped. Otherwise a tag is a key exactly when its listing is non-empty. |
| Tagging.ListedCount | waliki/wiki.py:169-178 | Each page appears under a tag as many times as it has distinct raw segments stripping to the tag. |
| Tagging.ListedAscending | waliki/wiki.py:169 | The pages under a tag are listed in index order. |
| Tagging.TallyListing | waliki/wiki.py:166-179 | The keys are exactly the non-empty stripped segments. Under each key the pages are listed in index order, each as many times as it has distinct segments stripping to the key. |
| Tagging.RepeatedSegmentOnce | waliki/wiki.py:170 | Tags `"a,a"` list the page once under `a`: the set removes the repeat. |
| Tagging.SpacedSegmentTwice | waliki/wiki.py:170-172 | Tags `"a, b, a"` list the page twice under `a`: `"a"` and `" a"` are distinct before stripping. |
| Wikis.PagePath | waliki/wiki.py:98-99 | `path(url)` is `join(root, url + EXTENSION)` and ends with the extension. |
| Wikis.UrlOf | waliki/wiki.py:143-151 | The URL of a walked page holds no backslash. |
| Wikis.TopLevelUrl | waliki/wiki.py:144-145 | A page file directly under the root gets its name, without the extension, as its URL. |
| Wikis.NestedUrl | waliki/wiki.py:146-147 | A page file at any depth gets the first directory, `/` and its name without the extension: the directories in between are dropped. |
| Wikis.SharedUrl | waliki/wiki.py:146-147 | The files `a/x/p` and `a/y/p` with the extension both get the URL `a/p`. |
| Wikis.Found | waliki/wiki.py:137-152 | Every file the walk meets ends with the extension, and its URL holds no backslash. |
| Wikis.FoundAppend | waliki/wiki.py:138-141 | The walk of a listing is the walk of its parts, one after the other. |
| Wikis.ByTitleOrdered | waliki/wiki.py:159 | `sorted(..., key=title.lower())` leaves the titles in order and is a permutation of the pages. |
| Wikis.IndexSorted | waliki/wiki.py:136-159 | `index()` is sorted by lower-cased title, and it holds exactly the walked pages, each as often. |
| Wikis.WalkedPages | waliki/wiki.py:137-152 | Every walked page is the page opened from a file the walk met. |
| Wikis.IndexPages | waliki/wiki.py:136-159 | Every page in the index is the page opened from a file the walk met. |
| Wikis.TagMapListing | waliki/wiki.py:166-179 | `get_tags()` maps exactly the non-empty stripped segments of the pages' tags. Under each it lists the pages in index order, each as often as it has distinct segments stripping to that tag. |
| Wikis.TagStep | waliki/wiki.py:171-178 | The three branches of the inner loop keep the dictionary equal to the listing of the segments seen so far. |
| Wikis.OrderedSubsequence | waliki/wiki.py:185-187 | A subsequence of a title-ordered list is title-ordered. |
| Wikis.ByTagKeepsIndexOrder | waliki/wiki.py:181-187 | `index_by_tag` returns the tagged pages in index order: the second sort moves nothing. |
| Wikis.Matched | waliki/wiki.py:194-197 | A page matches exactly when one of the attributes' texts matches the pattern, unless reading an attribute raises first. |
| Wikis.MatchedHit | waliki/wiki.py:194-197 | A page with one readable matching attribute is included. |
| Wikis.MatchedMiss | waliki/wiki.py:194-197 | A page with no matching attribute is left out. |
| Wikis.MatchedAnyOrder | waliki/wiki.py:194-197 | Reordering the attributes does not change whether a page matches, when all of them can be read. |
| Wikis.Wiki.constructor | waliki/wiki.py:94-96 | The wiki keeps its root and markup. |
| Wikis.Wiki.Get | waliki/wiki.py:105-109 | `get` returns nothing for a missing page. Otherwise it returns a fresh page opened from the file, or the error opening raises. |
| Wikis.Wiki.GetOr404 | waliki/wiki.py:111-115 | `get_or_404` is `get`, with `NotFound` in place of nothing. |
| Wikis.Wiki.GetBare | waliki/wiki.py:117-121 | `get_bare` refuses an existing page. Otherwise it returns a fresh unsaved page with empty metadata. |
| Wikis.Wiki.Move | waliki/wiki.py:123-127 | `move` renames the page file, or raises `OSError` and changes nothing. It succeeds exactly when the page exists, the new URL names nothing, the new file's folder exists, and the page is not a directory above the new path. After moving a file, the page is found at the new URL only, and no other path changes. |
| Wikis.Wiki.Delete | waliki/wiki.py:129-134 | `delete` returns false for a missing page, and raises `OSError` for a directory. Otherwise it removes the file, returns true, and no other path changes. |
| Wikis.Wiki.Walk | waliki/wiki.py:137-152 | `_walk` opens the files the walk meets, in order, or stops with the first exception. |
| Wikis.Wiki.OpenListed | waliki/wiki.py:142-152 | One listed file is opened as a page when it ends with the extension, and skipped otherwise. |
| Wikis.Wiki.SortByTitle | waliki/wiki.py:159 | The pages sorted by lower-cased title, or the first exception computing a title. |
| Wikis.Wiki.Index | waliki/wiki.py:136-160 | `index()` returns the pages of `Indexed`, or its exception. |
| Wikis.Wiki.TagPage | waliki/wiki.py:170-178 | After one page's tags, the dictionary lists that page under each of its tags as `Listed` states. |
| Wikis.Wiki.TagIndex | waliki/wiki.py:168-179 | The tag loop over the index builds `TagMap`, or raises its exception. |
| Wikis.Wiki.GetTags | waliki/wiki.py:166-179 | `get_tags()` returns the pages of `TagMap` of the index, or the first exception. |
| Wikis.Wiki.IndexByTag | waliki/wiki.py:181-187 | `index_by_tag` returns the pages of `ByTag` of the index, or the first exception. |
| Wikis.Wiki.MatchPage | waliki/wiki.py:194-197 | The inner `for attr` loop with its `break` computes `Matched`. |
| Wikis.Wiki.Matching | waliki/wiki.py:192-198 | The outer loop keeps exactly the matching pages, in index order. |
| Wikis.Wiki.Search | waliki/wiki.py:189-198 | `attrs` defaults to `title`, `tags` and `body`. `search` raises `PatternError` for a term that does not compile. Otherwise it returns the pages of the index that match, in index order. |

## Left out

- The `index(attr=...)` branch and `get_by_title`: the branch refers to an undefined `page`, so with a page present it can only raise `NameError`. The model has no such case.
- The HTML cache (`__html__`, `delete_cache`) and `__repr__`: they are outside the page store's logic.
- The `howto` class method and the `HOWTO` texts: they only render fixed help text through the foreign renderers.
- The `html`, `meta`, `title` and `tags` read properties are plain field reads; they are modelled through `Snapshot`, `Title` and `Tags`.
- UTF-8 encoding and decoding: the model works on Unicode strings throughout. The universal-newline translation of `'rU'` is modelled (`Text.Universal`); it acts on `\r` and `\n` only, which UTF-8 never uses inside a multi-byte character.
- Text-mode writing on Windows, which turns each `\n` into `\r\n`: the file holds the text exactly as written, as it does on POSIX.
- The Markdown and docutils renderers, `re.findall` over their output, `unicode.lower`, `urlify`, `re.compile`/`search` and `os.linesep` are foreign. They are fields of `Env`, so every property holds for all of them.
- markup.py uses `re` and `urlify` without importing or defining them. As written, reStructuredText `process` would raise `NameError`. The model gives it the evidently intended behaviour.
- Attributes of `search` other than `title`, `tags`, `body`, `html`, `url` and `path`: the metadata dictionary, the markup object and class, the methods of `Page` and the non-string slots every object has raise `TypeError` in `regex.search`, as modelled by `Wikis.NotText`. Every other name is modelled as `AttributeError`. That includes the further attributes Python gives every object (`__module__`, `__str__` and the like), whose real behaviour is not modelled.
- `os.listdir` order is the order of the entries in the tree; the model does not choose any particular file-system order.
- `.` and `..` in URLs are not interpreted; a URL component is a plain name.
- Escape.Unescaped: reads back only the escapes `repr` writes. Octal escapes, `\N{...}`, `\a`, `\b`, `\f`, `\v` and a backslash before any other character are not read.
- Forms, `app.py` and the web layer are not part of this model.
- Concurrency between requests is not modelled; each operation is one step on the tree.
- Store.MoveEntry: `os.rename` onto an existing file or empty directory would replace it on POSIX. The model raises `OSError`, as it does on Windows.
- Wikis.Wiki.Move: the frame (no other path changes) is stated only when the source is a file. When it is a directory, the new tree is stated only as the value of `MoveEntry`.
- Wikis.Wiki.TagPage: `for tag in pagetags` iterates a Python set in an unspecified order. The model picks any order, and proves the result does not depend on it.
- Pages.SaveLoadMeta: stated for reStructuredText only. Markdown metadata comes from the foreign Markdown library, and its round trip is that library's.
- Pages.SaveLoadMeta: keys and values holding `\r` are left out (`Pages.Fits`). The reload reads that `\r` as a line break, which splits the header line in two.
- Pages.SaveLoadMeta: a page with empty metadata is left out. Its written text starts with a lone newline, so the split at the first blank line falls inside the body.
- Pages.SaveLoadBody: stated only for non-empty metadata with no newline and no `\r` in any key or printed value. The reload reads a `\r` in the header as a line break, so the header would no longer be the lines written. With empty metadata the round trip really fails (`Pages.EmptyMetaLosesBody`). A newline inside a key or a string value makes the header hold a blank line, so the split can fall inside the header. A list value never prints a newline or `\r` (`Pages.ListPrinted`).
- Wikis.Wiki.Walk: a directory's contents are taken from the listed entry itself rather than by a second lookup of its path. The two agree on a tree that satisfies `Store.WellFormed`, as every real directory does; see `Store.NamedListed`.
