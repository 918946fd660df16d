# secinv-client: the configuration readers, modelled in Dafny

secinv-client gathers an inventory of a Linux server and sends it off.
This project models the parts that read configuration text and command
output, and proves properties about them:

- the Apache configuration engine of `client/apacheparser.py`:
  - the line-by-line tree builder `ApacheNode._parse` (`ApacheNode`);
  - the path queries `find` and `findall` (`ApachePaths`);
  - `ApacheConfig`'s directive index, domain map, include list and body
    (`ApacheConfigs`, with the digit-run port lists in `PortLists`);
- the line normaliser `clean_body` of `client/common.py` (`Common`). Its
  backslash-continuation joiner is shared with the other readers and
  lives in `LineJoin`;
- `SSHConfig.parse`, which appears twice with the same code: in
  `client/sshconfigparser.py` and in `client/inventory.py`. One model
  (`SshConfig`) serves both;
- the `iptables-save` normaliser `IPTables._parse` (`IpTables`);
- the `lsof` scraper `Services.get_services` (`Services`);
- the `ifconfig` scraper `Interfaces.get_interfaces` (`Interfaces`);
- the include walker `ApacheConfigList` (`IncludeWalker`).

Python's `str.strip`, `str.split()`, `re.split('\s*', …)`, `str.split(c)`,
`str.join`, `str.lower` and the capitalisation of directive names are
defined in `Strings`. Their Python 2 meaning is kept: `re.split('\s*', s)`
ignores empty matches, so it splits on runs of whitespace and keeps a
leading or trailing empty field. The failures the source raises are
`Outcomes.PyError` values.

How each kind of code is modelled:

- The loops that change state are methods with loop invariants, proved
  against specification functions:
  - `ApacheNode.Parse`;
  - `ApacheConfig.ScanChildren`, `GetDomains` and `GetIncludes`;
  - `Common.CleanBody`, `SshConfig.Parse`, `IpTables.Parse`,
    `Services.GetServices` and `Interfaces.GetInterfaces`;
  - `ApacheConfigList.RecurseApacheIncludes`.
- The in-place `del lines[index + 1]` of the continuation joiner is a
  method on a `StringList` object. The caller sees the shortened list,
  and the contracts state its new contents.
- `find`, `findall` and `print_r` are recursive functions.

Places where the code and its description disagree. The model follows
the code:

- `scan_children` files each node after its whole subtree (postorder),
  not before it.
- The `get_domains` port list holds every run of digits in the virtual
  host's arguments, IP address octets included. Arguments with no digit
  give `['']`.
- `<Name>`, a section start without arguments, does not open a section.
  `m.group('value')` is `None`, and `None.split()` raises.
- A continued line followed by a blank line ends in `' '`, because the
  two parts are joined by a space and the second is empty.
- The value `get_services` records is the field between the first and
  second `:` of the second-to-last field, not all the text after the
  first `:`. For `[::1]:631` it is `''`.

Where the code evidently does not do what its authors meant (see
Findings), the model defines both the code as written and a corrected
variant. `Interfaces.GetInterfaces` takes the variant as a parameter and
runs either one.

## Model

| member | source | states |
|---|---|---|
| Strings.Strip | client/apacheparser.py:99 | `line.strip()` is trimmed (no whitespace at either end) and no longer than the line |
| Strings.StripSlice | client/apacheparser.py:99 | the stripped line is a contiguous slice of the line |
| Strings.StripPadded | client/apacheparser.py:99 | stripping whitespace padding around a trimmed text gives that text back |
| Strings.Split | client/apacheparser.py:125 | every item of `str.split()` is non-empty and has no whitespace |
| Strings.SplitEmptyIff | client/apacheparser.py:125-126 | `line.split()` is empty exactly when the line is all whitespace |
| Strings.SplitAppend | client/apacheparser.py:125 | splitting text joined at a whitespace boundary gives the two splits concatenated |
| Strings.SplitJoin | client/apacheparser.py:111 | `' '.join(words).split() == words` for whitespace-free non-empty words |
| Strings.SplitFields | client/sshconfigparser.py:46 | `re.split('\s*', line)` has at least one field and no field holds whitespace |
| Strings.SplitOn | client/inventory.py:24 | `s.split(c)` has at least one part and no part holds `c` |
| Strings.JoinSplitOn | client/inventory.py:24 | `c.join(s.split(c)) == s` |
| Strings.SplitOnJoin | client/inventory.py:24 | `c.join(parts).split(c) == parts` when no part holds `c` |
| Strings.SplitOnSeveral | client/inventory.py:44-45 | `s.split(c)` has a second part exactly when `c` occurs in `s` |
| Strings.CapitalizeProperties | client/apacheparser.py:128-130 | directive-name capitalisation is idempotent, never leaves a lower-case first letter, keeps the rest of the name and does not change the lower-cased name |
| LineJoin.JoinContinuation | client/apacheparser.py:105-107 | the joined line never ends in `\`, consumes at most the following lines and is a line unchanged when it did not end in `\` |
| LineJoin.JoinedRestIsSuffix | client/common.py:87-91 | the lines left after joining are a suffix of the lines that followed |
| LineJoin.Logical | client/common.py:80-91 | no logical line ends in `\`; when blanks are skipped no logical line is empty; the list left behind is never longer than the input |
| LineJoin.KeptNotSkipped | client/common.py:83-84 | without continuations every kept line is one the skip rule lets through |
| LineJoin.LogicalWithoutContinuation | client/common.py:80-93 | without continuations the logical lines are the stripped non-skipped lines in order, and the list is left unchanged |
| LineJoin.SkippedLineIsInvisible | client/common.py:83-84 | a skipped line contributes nothing to the logical lines |
| LineJoin.ContinuationConsumesNext | client/common.py:87-91 | a continued line is joined with the next line, both stripped and one space between, and the consumed line is not read on its own |
| LineJoin.TrailingBackslashIsIncomplete | client/common.py:89-90 | a last non-skipped line ending in `\` makes the read fail (`lines[index + 1]`) |
| LineJoin.JoinedRestEmptyEndsLast | client/common.py:87-91 | a join that uses up every following line leaves a last line that does not end in `\` |
| LineJoin.JoinAt | client/common.py:87-91 | the in-place join: the result is the joined line, and the consumed lines are deleted from the caller's list right after `index` |
| Common.CleanBody | client/common.py:66-95 | `clean_body` is the specification `Clean` of the input lines: a `str` is split on `'\n'`, a list is used and shortened in place, and any other prefix type is a `TypeError` that leaves the list alone |
| Common.CleanLines | client/common.py:78-95 | the loop of `clean_body` computes `Clean` and leaves the list without the consumed continuation lines |
| Common.Render | client/common.py:93 | the body has at least one character per line |
| Common.RenderAppend | client/common.py:93 | one more line adds that line and `'\n'` at the end of the body |
| Common.RenderSplit | client/common.py:93 | splitting the body on `'\n'` gives back the lines and a final `''` |
| Common.CleanLinesShape | client/common.py:80-95 | the output is the logical lines, each non-empty, not ending in `\`, and followed by `'\n'` |
| Common.CleanWithoutContinuation | client/common.py:80-95 | without continuations the output is the stripped kept lines in input order |
| Common.KeptAreStripped | client/common.py:81-84 | every kept line is non-empty and stripped |
| Common.CommentLineDropped | client/common.py:83-84 | with comments off, a line whose first character is in the prefix is dropped |
| Common.CommentLineKept | client/common.py:83-93 | with comments on, a non-blank line is kept, stripped and followed by `'\n'` |
| Common.TrailingBackslashRaises | client/common.py:89-90 | a last kept line ending in `\` raises `IndexError` |
| Common.ContinuationOntoBlankLine | client/common.py:87-93 | a continued line followed by a blank line gives the line without its `\` and with a trailing space |
| Common.CleanTextLines | client/common.py:73-95 | for a `str` body the output, split on `'\n'`, is the logical lines followed by `''` |
| Common.PathJoin | client/common.py:9 | `os.path.join(a, b)` ends with `b`, and is `b` alone when `b` is absolute |
| Common.LogicalFree | client/common.py:87-91 | joining never introduces a character other than the space that no input line holds |
| ApacheNode.AddChild | client/apacheparser.py:21-24 | `add_child` appends the child to the current section, leaves the cursor where it is and leaves every other open section unchanged |
| ApacheNode.OpenSection | client/apacheparser.py:112-114 | a new section becomes the current one, with no children yet |
| ApacheNode.CloseSection | client/apacheparser.py:122 | `node = node.parent`: the finished section is appended to the enclosing one, and one fewer section is open |
| ApacheNode.Finish | client/apacheparser.py:95-134 | the root is returned even with sections still open; it is always a section named `''` without values |
| ApacheNode.Classify | client/apacheparser.py:109-123 | a section start is `<` name args `>` with a name of `[^/\s>]` characters and args free of `>`; a section end is `</` name, blanks, `>`; a line not starting with `<` is a directive |
| ApacheNode.DirectiveLine | client/apacheparser.py:125-132 | a single-spaced directive line (its words joined by one space) adds exactly one leaf: its name is the first word with its first letter capitalised, and its values are the remaining words |
| ApacheNode.SectionStartLine | client/apacheparser.py:109-115 | a single-spaced `<name args>` (the words of `args` joined by one space) opens a section whose values are the words of `args`, and the cursor moves into it |
| ApacheNode.SectionStartWithoutValues | client/apacheparser.py:111 | a section start with blank arguments fails (`None.split()`) |
| ApacheNode.SectionEndLine | client/apacheparser.py:117-123 | `</name>` closes the current section exactly when `name` equals its name, compared case-sensitively; otherwise the mismatch is reported with both names |
| ApacheNode.StrayClose | client/apacheparser.py:117-121 | a closing tag at top level is always a mismatch against the root name `''` |
| ApacheNode.SkippedLine | client/apacheparser.py:99-102 | a blank line or a `#` comment line produces no node and changes nothing |
| ApacheNode.RunJoins | client/apacheparser.py:105-107 | a continued line is joined with the following lines before it is read, and the consumed lines are not read again |
| ApacheNode.RunStops | client/apacheparser.py:106-107 | a `\` on the last line stops the parse (`itobj.next()` raises `StopIteration`) |
| ApacheNode.RunIsLogical | client/apacheparser.py:95-134 | reading the physical lines is the same as applying the logical lines of the shared joiner in order |
| ApacheNode.ReadContinued | client/apacheparser.py:105-107 | the inner `while` loop computes the shared continuation join |
| ApacheNode.Parse | client/apacheparser.py:95-134 | the loop of `_parse` returns the tree, or the error, of the specification `ParseLines` |
| ApachePaths.PathElements | client/apacheparser.py:28 | `path.strip('/').split('/')` has at least one element |
| ApachePaths.PathElementsEmpty | client/apacheparser.py:28-29 | the first element is empty exactly when the path is empty or all slashes |
| ApachePaths.EmptyPathIsSelf | client/apacheparser.py:26-51 | for an empty or all-slash path, `find` returns the node itself and `findall` returns `[node]` |
| ApachePaths.Matching | client/apacheparser.py:57-60 | the matching children are exactly the children whose name equals the element ignoring case |
| ApachePaths.FindAllInOne | client/apacheparser.py:53-63 | `_findall` over one element gives the matching children in child order |
| ApachePaths.OneElementQueries | client/apacheparser.py:26-63 | for a one-segment path, `findall` is exactly the direct children that match ignoring case, in order, and `find` is the first of them or `None` |
| ApachePaths.FindIsFirst | client/apacheparser.py:26-63 | `find` always returns the first result of `findall`, on the corrected path walk |
| ApachePaths.FindAtIsFirst | client/apacheparser.py:33-44 | `_find` returns the first result of `_findall` at every depth of the path |
| ApachePaths.FindAllInAppend | client/apacheparser.py:53-61 | corrected `_findall`: every matching sibling is searched with the same rest of the path, so the results for a run of siblings are the results for its parts in order |
| ApachePaths.FindInAppend | client/apacheparser.py:33-42 | corrected `_find`: the first match in a run of siblings is the first in its first part that has one, else the first in the rest |
| ApachePaths.OneElementAgrees | client/apacheparser.py:33-63 | for one-segment paths, `find` and `findall` as written (popping from the shared list) agree with the corrected ones |
| ApachePaths.FindAllAsWrittenSharesPath | client/apacheparser.py:53-61 | as written, `findall('A/B')` over two `A` sections returns the second `A` itself instead of its `B` child |
| ApachePaths.FindAsWrittenSharesPath | client/apacheparser.py:33-42 | as written, `find('A/B')` returns an `A` section instead of a `B` when the first `A` has no `B` |
| ApachePrint.PrintParse | client/apacheparser.py:65-134 | reading back what `print_r` prints reproduces the tree, for trees of plain words with capitalised directive names |
| ApachePrint.ReadChildren | client/apacheparser.py:70-71 | reading the printed children adds exactly those children to the current section |
| ApachePrint.UnclosedSection | client/apacheparser.py:134 | a section whose closing tag is missing is still returned inside the root |
| ApachePrint.MismatchedClose | client/apacheparser.py:117-121 | a closing tag of another name inside a printed section is a section mismatch naming both |
| ApachePrint.StrayCloseFails | client/apacheparser.py:117-121 | a printed closing tag as the first line is a mismatch against the root `''` |
| ApachePrint.Indent | client/apacheparser.py:69 | the indentation is four spaces per level |
| PortLists.PortList | client/apacheparser.py:200-206 | the port list is never empty and holds only digit strings |
| PortLists.ExtractPorts | client/apacheparser.py:200-206 | the regular-expression pipeline computes the port list |
| PortLists.PortsAreDigitRuns | client/apacheparser.py:203-206 | `re.split(' ', p.sub(' ', s).strip())` is exactly the runs of digits of `s`, or `['']` when there is none |
| PortLists.SpacedShape | client/apacheparser.py:203-204 | replacing the non-digit runs by spaces gives the digit runs joined by single spaces, with at most one space at each end |
| PortLists.DigitRuns | client/apacheparser.py:203 | every digit run is a non-empty string of digits |
| ApacheConfigs.KeyFor | client/apacheparser.py:182-189 | a directive goes under its own name or, when the name is not a key but its lowercased form is, under the lowercased name |
| ApacheConfigs.AddValue | client/apacheparser.py:182-189 | filing adds at most the one key and leaves every other key's list unchanged |
| ApacheConfigs.Entries | client/apacheparser.py:174-180 | the returned list has one entry per child, with its name and `' '.join(values)` |
| ApacheConfigs.IndexByName | client/apacheparser.py:172-191 | without case aliases, a name is a key exactly when it was one or some node has it; its list is the old list followed by the values of the nodes of that name, in filing order |
| ApacheConfigs.LowercaseFallback | client/apacheparser.py:186-187 | a name that is not a key but whose lowercase form is goes under the lowercase key, and no key of its own spelling appears |
| ApacheConfigs.IndexOnlyAppends | client/apacheparser.py:182-189 | filing never removes a key and only appends to the lists |
| ApacheConfigs.SectionAfterChild | client/apacheparser.py:175-189 | a section is filed after its subtree (postorder): `<Directory /a><Directory /a/b>` files `/a/b` before `/a` |
| ApacheConfigs.PostorderAppend | client/apacheparser.py:175-180 | the filing order of two runs of siblings is their filing orders one after the other |
| ApacheConfigs.IndexAllAppend | client/apacheparser.py:175-189 | filing two runs of nodes is filing the first, then the second |
| ApacheConfigs.ApacheConfig.ScanChildren | client/apacheparser.py:172-191 | `scan_children` returns the `Entries` of the children and files their whole subtrees in postorder; the other fields do not change |
| ApacheConfigs.ApacheConfig.File | client/apacheparser.py:182-189 | the loop body files one value by `AddValue` |
| ApacheConfigs.ApacheConfig.Parse | client/apacheparser.py:145-149 | `parse` sets the file name, keeps the tree of `ParseLines` and indexes its nodes; on a parse error the tree and the index are unchanged |
| ApacheConfigs.DomainsByName | client/apacheparser.py:196-213 | a domain is a key exactly when it was one or some virtual host is recorded under it; its list is the old list followed by those hosts' port lists in order; hosts without `ServerName` add nothing |
| ApacheConfigs.AddDomainAt | client/apacheparser.py:208-211 | recording one virtual host touches only the key of its first `ServerName` value |
| ApacheConfigs.ApacheConfig.GetDomains | client/apacheparser.py:196-213 | `get_domains` records the `VirtualHost` children of the root in order into `domains`, and returns it |
| ApacheConfigs.ApacheConfig.RecordHost | client/apacheparser.py:199-211 | the loop body records one virtual host |
| ApacheConfigs.StripQuotes | client/apacheparser.py:226-228 | stripping quotes never lengthens the server root |
| ApacheConfigs.QuotesRemoved | client/apacheparser.py:226-228 | one pair of matching `"` or `'` around the server root is removed |
| ApacheConfigs.UnquotedKept | client/apacheparser.py:226-228 | a server root without a matching pair of quotes is kept as it is |
| ApacheConfigs.ApacheConfig.ServerRoot | client/apacheparser.py:218-230 | the server root is `APACHE_ROOT` under `DEBUG` or without a `ServerRoot` child, else the unquoted joined values of the first one |
| ApacheConfigs.ApacheConfig.GetIncludes | client/apacheparser.py:215-241 | `get_includes` concatenates the glob expansions of the `Include` children's patterns, joined onto the server root, in `Include` order |
| ApacheConfigs.GlobbedMembers | client/apacheparser.py:232-239 | a file is in the include list exactly when the pattern of some `Include` child expands to it |
| ApacheConfigs.ApacheConfig.GetBody | client/apacheparser.py:151-161 | `get_body` is `''` for an unreadable file, else `clean_body` of its lines with `'#'` |
| ApacheConfigs.FindChildren | client/apacheparser.py:46-63 | `findall(name)` with a one-segment name gives the matching direct children |
| ApacheConfigs.FindChild | client/apacheparser.py:26-44 | `find(name)` with a one-segment name gives the first matching direct child |
| SshConfig.Parse | client/sshconfigparser.py:11-57 | `SSHConfig.parse` returns `ParseSsh`: the body, the items and the resolved filename, or the `IndexError` of a dangling `\` |
| SshConfig.ReadLines | client/inventory.py:239-262 | the loop computes the body and the items of the logical lines, and leaves the list without the consumed continuation lines |
| SshConfig.ItemsByKeyword | client/sshconfigparser.py:45-51 | a keyword is an item exactly when some non-comment line gives it; its list is the first value given, then every later one with a leading space |
| SshConfig.KeywordsHaveNoSpace | client/sshconfigparser.py:46-51 | every keyword is a single whitespace-free field |
| SshConfig.BodyIsCleanBody | client/inventory.py:239-262 | the SSH body is `clean_body` of the same lines with `'#'`, and the two fail on the same inputs |
| SshConfig.TrailingBackslashFails | client/sshconfigparser.py:39-43 | a last kept line ending in `\` raises `IndexError` |
| SshConfig.ValuesFor | client/sshconfigparser.py:45-51 | a keyword has at most one value per line |
| IpTables.Parse | client/inventory.py:291-330 | the loop of `IPTables._parse` computes `IptBody`: the normalised logical lines, each followed by `'\n'`, or the `IndexError` of a dangling `\` |
| IpTables.NormaliseChain | client/inventory.py:315-324 | the rewrite of one kept line is `Normalised` |
| IpTables.NormalisedAll | client/inventory.py:300-326 | each output line is the normalised logical line at the same position |
| IpTables.ChainKeepsChainAndPolicy | client/inventory.py:315-324 | a chain line with counters keeps exactly its chain and policy fields, and still starts with `:` |
| IpTables.ChainFields | client/inventory.py:321-324 | the `.strip()` calls leave the fields unchanged, and `':' + chain_name` rebuilds the first field |
| IpTables.NormaliseIdempotent | client/inventory.py:315-324 | normalising a normalised line changes nothing |
| IpTables.NormalisedUnmarked | client/inventory.py:303-306 | a line that is not skipped stays non-empty and keeps no `# Completed on` or `# Generated by` marker after normalising |
| IpTables.MarkersNeverInBody | client/inventory.py:303-326 | for output without continuation lines, no body line is blank or starts with `# Completed on`; with comments on none starts with `# Generated by`, and with comments off none starts with `#` |
| IpTables.ContinuedIntoOneLine | client/inventory.py:303-312 | a lone `\` line followed by `m \` and `y` is the one logical line `m y`: the skip test never sees `m` |
| IpTables.CompletedMarkerInBody | client/inventory.py:303-326 | as written, with comments off, the lines `\`, `# Completed on x \` and `y` put `# Completed on x y` into the body |
| IpTables.Unskipped | client/inventory.py:303-306 | keeps exactly the lines the skip test passes |
| IpTables.MarkersNeverInCorrectedBody | client/inventory.py:303-326 | with the skip test applied to joined lines too, no body line carries a marker the test rejects, continuations included |
| IpTables.CorrectedAgreesWithoutContinuation | client/inventory.py:300-326 | without continuation lines the corrected body is the body as written |
| Services.GetServices | client/inventory.py:172-192 | the loop of `get_services` computes `ServicesFrom` of the lines of the output |
| Services.LastListenerWins | client/inventory.py:184-190 | a process is a key exactly when some `(LISTEN)` line names it, and its value is the port of the last such line |
| Services.FailsIffMalformed | client/inventory.py:187-190 | the scan fails exactly when some `(LISTEN)` line lacks a field, and the failure is `IndexError` |
| Services.MalformedIff | client/inventory.py:187-190 | a `(LISTEN)` line fails exactly when it has one field or its second-to-last field has no `:` |
| Services.PortIsSecondField | client/inventory.py:190 | the value is the text between the first and second `:` of the address field |
| Services.NoServicesAfterError | client/inventory.py:178-190 | once a line fails, later lines change nothing |
| Interfaces.GetInterfaces | client/inventory.py:20-54 | the loop of `get_interfaces` computes `InterfacesOf(v, …)`: with `AsWritten` the code's restart test and its `IndexError` on a whitespace-only line, with `Corrected` the intended test |
| Interfaces.ApplyLine | client/inventory.py:31-52 | the loop body applies one line by `Step(v, …)`, as written or corrected |
| Interfaces.WhitespaceOnlyLine | client/inventory.py:31-33 | as written, a whitespace-only line raises `IndexError` at `ls[0]`; corrected, it changes nothing |
| Interfaces.IndexOf | client/inventory.py:39-43 | `ls.index(t)` is the first position of `t` |
| Interfaces.StepKey | client/inventory.py:33-35 | a line adds at most the key of the entry it restarts |
| Interfaces.KeysAreRestarts | client/inventory.py:27-35 | the interfaces are exactly the names of the lines that restart an entry |
| Interfaces.AsWrittenRestart | client/inventory.py:31-34 | as written every non-blank line restarts an entry, named by its first word |
| Interfaces.HeaderLinesRestart | client/inventory.py:31-34 | corrected, a line restarts an entry exactly when it does not start with whitespace, named by its first word |
| Interfaces.AsWrittenKeys | client/inventory.py:27-35 | as written, the interfaces are exactly the first words of the non-blank lines |
| Interfaces.CorrectedKeys | client/inventory.py:27-35 | corrected, the interfaces are exactly the first words of the lines that do not start with whitespace |
| Interfaces.StepWritesCurrent | client/inventory.py:37-52 | the MAC is written lower-cased from after `HWaddr`, and the IP and mask from after `inet` and from the last word, into the current entry |
| Interfaces.RestartBlanks | client/inventory.py:34-35 | a restarted entry starts blank, so it holds only what its own line writes |
| Interfaces.StepKeepsOthers | client/inventory.py:37-52 | a line changes no entry other than the current one |
| Interfaces.StepCurrent | client/inventory.py:33-34 | the current interface changes only on a restart |
| Interfaces.CurrentHasEntry | client/inventory.py:33-39 | the current interface has an entry exactly when some line restarted one |
| Interfaces.NoRestartNoEntries | client/inventory.py:27-35 | without a restart there are no interfaces |
| Interfaces.KeyErrorBeforeAnyRestart | client/inventory.py:39-50 | a `KeyError` happens only on a field line read before any entry was started |
| Interfaces.AsWrittenNeverKeyError | client/inventory.py:33-50 | as written a `KeyError` never happens, because every written line first restarts an entry |
| Interfaces.HeaderFirstNeverKeyError | client/inventory.py:33-50 | corrected, output whose first line is a header never raises `KeyError` |
| Interfaces.NoInterfacesAfterError | client/inventory.py:27-52 | once a line fails, later lines change nothing |
| Interfaces.IndentedInetLine | client/inventory.py:31-52 | an indented `inet addr:` line creates an entry named `inet` as written; corrected, it fills the header's entry |
| IncludeWalker.RemoveFirstCounts | client/inventory.py:356-359 | exactly one copy of `x` is removed when present, so later copies stay |
| IncludeWalker.ApacheConfigList.RecurseApacheIncludes | client/inventory.py:344-363 | `recurse_apache_includes` appends `WalkList` to the list, or reports its error |
| IncludeWalker.ApacheConfigList.Recurse | client/inventory.py:365-383 | `recurse` appends the root record and then the walk of its includes, or reports the error |
| IncludeWalker.ApacheConfigList.GetApacheConfigs | client/inventory.py:385-388 | `get_apache_configs` returns the old list followed by `ApacheConfigsOf`, which is empty when the root file does not exist; on success the field `apacheConfigs` is the returned list itself |
| IncludeWalker.WalkStep | client/inventory.py:345-363 | each included file's record is followed by the records of its own includes, depth-first, then by its later siblings |
| IncludeWalker.RootRecordFirst | client/inventory.py:365-388 | the root file's record comes first, without the first occurrence of its own path; there is no record when the root file does not exist |
| IncludeWalker.EveryTargetRecorded | client/inventory.py:345-363 | every file in an include list gets a record |
| IncludeWalker.SelfIncludeRecordedTwice | client/inventory.py:355-363 | a file that includes itself is not pruned under another parent, so it is recorded twice |
| IncludeWalker.TwoCycleIsPruned | client/inventory.py:355-383 | two files that include each other are each recorded once |
| IncludeWalker.ThreeCycleExhausts | client/inventory.py:344-363 | a cycle through three files recurses until the recursion limit (`RuntimeError`) |
| IncludeWalker.DiamondRecordsTwice | client/inventory.py:344-363 | with no visited set, a file reached along two include paths gets two records |

## Left out

- Reading files, running `ifconfig`, `lsof` and `iptables-save`, and
  `glob.glob` are outside the model. File contents and command output are
  parameters; `glob` is a function parameter of `GetIncludes`.
- `PARSE_CONF_COMMENTS`, `DEBUG` and `APACHE_ROOT` are parameters.
  Reading them from `settings.conf` (client/common.py:19-62) is not part
  of this model.
- The include walker reads each file through the parameter
  `facts: string -> Facts`: the body, directives, domains and include list
  of the `ApacheConfig` built for that file. Parsing each file is
  modelled separately, in `ApacheConfigs`.
- Python's recursion limit is the parameter `depth`, the number of nested
  `recurse_apache_includes` frames allowed. Running out is a
  `RuntimeError`.
- IncludeWalker.RecordOf and IncludeWalker.WalkList: `facts` is total, so
  an included file is always parsed and recorded. The exceptions that
  `parse`, `get_domains` and `get_includes` raise for an included file (a
  mismatched close tag, a trailing `\`, a `ServerName` without a value,
  an empty `ServerRoot`) and that abort `recurse_apache_includes` and
  `get_apache_configs` are not modelled; the only failure of the walk is
  the `RuntimeError` of the recursion limit.
- IncludeWalker.ApacheConfigList.RecurseApacheIncludes, IncludeWalker.ApacheConfigList.Recurse
  and IncludeWalker.ApacheConfigList.GetApacheConfigs: after an error, the
  contracts do not state which records were already appended.
- The tree is a value: a `Node` owns its children. The `parent` references
  of `add_child` and the sharing of node objects are not modelled. The
  cursor that follows `parent` is a stack of open sections.
- `parse_file` returning `False` for an unreadable file, and the
  `AttributeError` of `parse` that follows, are not modelled:
  `ApacheConfig.Parse` takes the lines of a readable file.
- `parse_string` is not modelled. Its list input has no `.next()`, so
  only its behaviour without continuation lines would match `Parse`.
- `print_r` is modelled as a function returning the printed lines, and is
  used only as the inverse of `_parse`. `print_children` calls an
  undefined global and is left out.
- `get_directives` returns the field; `GetDirectives` has no contract of
  its own.
- A `ServerName` child without a value, and an empty `ServerRoot`, crash
  in the source. They are preconditions of `GetDomains` and
  `GetIncludes`.
- For multi-segment paths the model states the source's shared-list
  behaviour only through two concrete counterexamples (see Findings); the
  rest of the model uses the corrected search.
- `System`, `RPMs`, `PHPConfig` and `MySQLConfig` read system files and
  commands; client/client.py is transport. None of them is part of this
  model.
- Printing is not modelled: neither the notice `SSHConfig.parse` prints
  when the file cannot be opened (client/sshconfigparser.py:27) nor the
  module-level statement that parses and prints the default file when the
  module is imported (client/sshconfigparser.py:59). `SshConfig.Parse` returns the empty
  result for an unreadable file and says nothing else.
- Strings are sequences of characters. Byte encodings and Unicode case
  rules are left out: `lower`, `upper` and `isspace` are ASCII only.

## Findings

| source | as written | input that shows it | evidently intended | confidence | as-written member | corrected member |
|---|---|---|---|---|---|---|
| client/apacheparser.py:33-61 | `_find` and `_findall` `pop(0)` from one list shared by all siblings, so after the first matching sibling the later ones see a shorter path | root with two `A` sections holding `B 1` and `B 2`, path `A/B`: `findall` returns `B 1` and the second `A` itself | each matching child is searched with the rest of the path, so the result is both `B` nodes | not executed | ApachePaths.FindAllAsWrittenSharesPath | ApachePaths.FindAllInAppend |
| client/inventory.py:303-312 | the skip test looks at the stripped physical line before it is joined with its continuations, so a marker that reaches the start of a logical line through a join is kept | with comments off, the lines `\`, `# Completed on x \` and `y` put `# Completed on x y` into the body | the skip test also applies to the joined line, so no marker reaches the body | not executed | IpTables.CompletedMarkerInBody | IpTables.MarkersNeverInCorrectedBody |
| client/inventory.py:33-35 | `ls[0].strip()` is never empty after `split()`, so every non-blank line starts a new blank entry, and the indented `inet addr:` line of `ifconfig` starts one named `inet` | the lines `eth0` and `  inet addr:10.0.0.1` give entries `eth0` (blank) and `inet` | only a line that starts in the first column names an interface; indented lines fill its entry | not executed | Interfaces.IndentedInetLine | Interfaces.CorrectedKeys |
