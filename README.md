# TCF agent core in Dafny

This project is a Dafny model of the core of the Target Communication Framework (TCF)
agent and its value-add proxy server. Each module follows one part of the C sources and
proves properties of its model:

- `PeerLocator` models how a peer is built from a locator URL. A URL such as
  `TCP:host:port;Key=Value` becomes a property list that starts with the agent's default
  properties. It also models the JSON form of a peer, and how a transport name is chosen
  for a server and for a connection.
- `ChannelHub` models the channel bookkeeping in `channel.c`. It keeps the channels, their
  broadcast groups and the listener registries. It also models broadcast output to every
  member of a group that is in a broadcast-enabled state, starting a channel, and the
  shutdown hook that closes every channel and server.
- `AsyncReq` models the pool of worker threads behind asynchronous requests. It covers
  posting a request, parking a worker that has finished, shutdown by sentinel request and
  worker exit. It also models the error convention for a single request.
- `MdepBytes`, `MdepTime` and `MdepPath` model the portability helpers in `mdep.c`:
  - `swap_bytes`, `strlcpy`, `strlcat` and the quoted command line of `make_cmd_from_args`;
  - the Windows file-time conversion and `clock_gettime`;
  - the VxWorks `canonicalize_file_name`.
- `Digits` models the hexadecimal and decimal field codec. Symbol identifiers are written
  and read back with it, and both symbol readers share it.
- `AgentSymbolId`, `AgentSymbols` and `SymbolRank` model the agent's ELF/DWARF symbol reader
  (`agent/tcf/services/symbols_elf.c`):
  - writing a symbol identifier into the temporary buffer and parsing it back;
  - symbol classes and the lookup by address, including synthetic PLT entries;
  - the ARM mapping symbols and the ISA range narrowing;
  - array index lengths;
  - the ranking and de-duplication of a name lookup's candidate list.
- `ServiceSymbolId` and `ServiceSymbols` model the older symbol reader
  (`services/symbols_elf.c`):
  - its identifier format;
  - address and name lookup across symbol tables;
  - symbol lengths and the packing of constant values.
- `Server` models the proxy server's `server.c`. It covers what `ini_server` registers, how
  a new connection is set up, and which services the redirection listener installs for the
  services the target offers.

Where a routine loops or updates state, the model is imperative Dafny: a class with fields
and `modifies` frames, arrays for fixed buffers, and loops with invariants. Each such method
is proved equal to a specification function, and the properties are proved about that
function. Routines that only compute a value are functions. C integer widths are explicit:
`U32`, `U64`, `I32` and `I64` wrap, and `CDiv`/`CRem` truncate toward zero. `Base` holds
these definitions and the shared `Option`/`Result` types.

## Model

| member | source | states |
|---|---|---|
| ChannelHub.BroadcastOkStates | agent/tcf/framework/channel.c:71-72 | a channel receives broadcast output exactly in states Connected, RedirectSent and RedirectReceived |
| ChannelHub.Hub.GroupAlloc | agent/tcf/framework/channel.c:173-182 | a new group is live and has no members; channels, other groups and servers are unchanged |
| ChannelHub.Hub.GroupFree | agent/tcf/framework/channel.c:184-198 | the group is emptied and dead; every former member has no group; other channels keep theirs |
| ChannelHub.Hub.SetGroup | agent/tcf/framework/channel.c:200-204 | the channel leaves every group it was in and becomes the last member of the new group; its group link points to it |
| ChannelHub.Hub.ClearGroup | agent/tcf/framework/channel.c:206-210 | a channel without a group is left as is; otherwise it is removed from its group's list and its link cleared |
| ChannelHub.WithoutNoDup | agent/tcf/framework/channel.c:206-210 | removing a channel from a member list without repeats leaves a list without repeats |
| ChannelHub.Hub.WriteAll | agent/tcf/framework/channel.c:94-105 | each channel's output gains the byte exactly when it is a group member in a broadcast state; nothing else changes |
| ChannelHub.Hub.WriteBlockAll | agent/tcf/framework/channel.c:107-118 | each channel's output gains the block exactly when it is a group member in a broadcast state; nothing else changes |
| ChannelHub.Hub.SpliceBlockAll | agent/tcf/framework/channel.c:120-135 | at most 0x400 and at most `size` bytes are read; the offset advances by the count only when it is positive; only then is the block broadcast |
| ChannelHub.Hub.Start | agent/tcf/framework/channel.c:349-355 | a channel waiting to start, with a protocol, becomes Started; nothing else changes |
| ChannelHub.Hub.TriggerShutdown | agent/tcf/framework/channel.c:74-92 | every channel ends closed; close is called once for each channel that was open, in list order; every server is closed in order and the server list emptied |
| ChannelHub.Hub.CloseChannels | agent/tcf/framework/channel.c:77-84 | every channel ends closed and close is called for exactly the channels that were open, in order |
| ChannelHub.CloseAll | agent/tcf/framework/channel.c:77-84 | the shutdown loop leaves every channel closed and records a close for each channel that was open, in list order |
| ChannelHub.OpenAmongMembers | agent/tcf/framework/channel.c:77-84 | a channel is closed by the shutdown loop if and only if it was open |
| ChannelHub.Hub.CloseServers | agent/tcf/framework/channel.c:86-91 | each server's close is called in list order and the list is emptied |
| ChannelHub.OpenAmongNoDup | agent/tcf/framework/channel.c:77-84 | no channel is closed twice during shutdown |
| ChannelHub.Registry.Add | agent/tcf/framework/channel.c:137-150 | a listener is appended to the registry's contents, which must have a free slot of the 16 |
| ChannelHub.Registry.Notify | agent/tcf/framework/channel.c:152-171 | every registered listener is called once, with the channel, in registration order |
| ChannelHub.Hub.SetProtocol | server/tcf/main/server.c:40 | only the channel's protocol flag is set |
| PeerLocator.PeerFromUrl | agent/tcf/framework/channel.c:224-278 | the property list is the one the locator grammar assigns the URL, or none when it is malformed |
| PeerLocator.AddLocator | agent/tcf/framework/channel.c:236-277 | the explicit part of the URL is added after the defaults |
| PeerLocator.ScanTransport | agent/tcf/framework/channel.c:236-246 | the transport is the leading letters of the URL, at most 16, upper-cased |
| PeerLocator.SkipUntil | agent/tcf/framework/channel.c:247-253 | the scan stops at the first stop character or at the end |
| PeerLocator.AddHostPort | agent/tcf/framework/channel.c:247-277 | the host, the optional port and the parameters are added in that order |
| PeerLocator.AddPort | agent/tcf/framework/channel.c:249-277 | a port follows `:` up to the next `;` |
| PeerLocator.AddParams | agent/tcf/framework/channel.c:256-277 | each `;Key=Value` segment is added in order; an empty key, a missing `=` or trailing garbage makes the whole URL fail |
| PeerLocator.SegmentStep | agent/tcf/framework/channel.c:256-272 | a well-formed segment contributes exactly its key and value and parsing resumes at the next `;` |
| PeerLocator.BadSegment | agent/tcf/framework/channel.c:261-265 | a segment without a non-empty key before `=` rejects the URL |
| PeerLocator.Defaults | agent/tcf/framework/channel.c:231-234 | the default properties have distinct names |
| PeerLocator.ParseStartsWithDefaults | agent/tcf/framework/channel.c:231-234 | a parsed peer starts with Name, OSName, UserName when the user is known, and AgentID |
| PeerLocator.BadLocatorRejected | agent/tcf/framework/channel.c:256-276 | `bad;;;` is rejected |
| PeerLocator.FormatParseRoundTrip | agent/tcf/framework/channel.c:236-277 | printing a well-formed locator and parsing it back yields its transport, host, port and parameters in order |
| PeerLocator.TcpExample | agent/tcf/framework/channel.c:224-277 | `TCP:localhost:1534;Test=1` yields TransportName TCP, Host localhost, Port 1534 and Test 1 |
| PeerLocator.AddPropGet | agent/tcf/framework/channel.c:271 | after adding a property its name reads back the new value and every other name reads back the old one |
| PeerLocator.AddPropNames | agent/tcf/framework/channel.c:271 | adding a property keeps the names unique and appends the name only when it is new |
| PeerLocator.PeerToJson | agent/tcf/framework/channel.c:280-298 | the text is `{`, the members joined by commas, `}` and a terminating NUL |
| PeerLocator.JoinMembersAppend | agent/tcf/framework/channel.c:288-293 | each further property adds a comma and its `"name":value` member at the end |
| PeerLocator.ServerTransport | agent/tcf/framework/channel.c:303-324 | a missing transport name is added to the properties as TCP and selects the TCP backend; a present one leaves the properties unchanged; only TCP, SSL, PIPE and UNIX succeed; any other name fails with an invalid-transport error |
| PeerLocator.ConnectTransport | agent/tcf/framework/channel.c:329-344 | a peer without a transport name is connected over TCP |
| PeerLocator.ServerConnectAgree | agent/tcf/framework/channel.c:303-344 | the server and the connect side choose the same backend for every peer |
| AsyncReq.ErrorOf | agent/tcf/framework/asyncreq.c:97-104 | a request's error is non-zero exactly when the call returned -1 |
| AsyncReq.ExecuteError | agent/tcf/framework/asyncreq.c:96-266 | the error is reset; a supported request keeps the call's return value and reports errno exactly on -1; an unknown type reports ENOSYS |
| AsyncReq.ExecuteFreesName | agent/tcf/framework/asyncreq.c:98-262 | the file name is freed after the call exactly for the request types that carry a name |
| AsyncReq.Pool.constructor | agent/tcf/framework/asyncreq.c:374-377 | the pool starts with no idle and no running worker, stopped |
| AsyncReq.Pool.Spawn | agent/tcf/framework/asyncreq.c:291-302 | a fresh worker holds the request, the running count grows by one and the first worker sets shutdown state Normal |
| AsyncReq.Pool.Post | agent/tcf/framework/asyncreq.c:353-372 | with no idle worker, a new worker is started on the dispatch thread and deferred otherwise; a worker started on the dispatch thread makes the first running worker set the state to Normal and leaves it unchanged otherwise; else the first idle worker is handed the request and removed from the idle list |
| AsyncReq.Pool.Finish | agent/tcf/framework/asyncreq.c:267-282 | completion is posted; the worker parks at the end of the idle list exactly when fewer than 32 are idle and shutdown is not pending, else it exits |
| AsyncReq.Pool.Wake | agent/tcf/framework/asyncreq.c:283-288 | a woken worker exits exactly when it was handed the shutdown sentinel, otherwise it runs its request |
| AsyncReq.Pool.TriggerShutdown | agent/tcf/framework/asyncreq.c:61-72 | shutdown is pending, the idle list is empty, and every formerly idle worker holds the sentinel; busy workers are untouched |
| AsyncReq.Pool.HandSentinel | agent/tcf/framework/asyncreq.c:63-70 | the first idle worker is removed from the list and given the sentinel |
| AsyncReq.Pool.WorkerExit | agent/tcf/framework/asyncreq.c:77-88 | the worker is forgotten, the running count drops by one and the last exit sets shutdown state Stopped |
| MdepBytes.SwapBytes | agent/tcf/framework/mdep.c:555-564 | the first `size` bytes are reversed in place; the rest of the buffer is unchanged |
| MdepBytes.ReverseTwice | agent/tcf/framework/mdep.c:555-564 | swapping twice restores the original bytes |
| MdepBytes.Strlcpy | agent/tcf/framework/mdep.c:1553-1564 | the result is the source length; at most size-1 characters are copied and NUL-terminated; nothing beyond is written; size 0 writes nothing |
| MdepBytes.ScanDst | agent/tcf/framework/mdep.c:1572 | the scan finds the destination's string length, capped at size |
| MdepBytes.AppendBounded | agent/tcf/framework/mdep.c:1574-1578 | the source is appended while room remains and then terminated; the existing prefix is kept |
| MdepBytes.Strlcat | agent/tcf/framework/mdep.c:1566-1580 | as written: the existing string is kept, as much of the source as fits is appended and terminated, and the bytes after the terminator are unchanged; the result is the final length plus the source length |
| MdepBytes.StrlcatReportsFalseTruncation | agent/tcf/framework/mdep.c:1579 | an empty 4-byte buffer and the source `ab` give result 4, which signals truncation although both bytes fit |
| MdepBytes.StrlcatBsd | agent/tcf/framework/mdep.c:1566-1580 | the same buffer effect, with the bytes after the terminator unchanged, and with the result the initial length plus the source length |
| MdepBytes.StrlcatBsdDetectsTruncation | agent/tcf/framework/mdep.c:1566-1580 | with the corrected result, result >= size exactly when the source did not fit |
| MdepBytes.AppendQuoted | agent/tcf/framework/mdep.c:1273-1280 | one argument is appended in double quotes, each `"` preceded by a backslash |
| MdepBytes.MakeCmdFromArgs | agent/tcf/framework/mdep.c:1259-1286 | the command line is the quoted arguments separated by single spaces and NUL-terminated |
| MdepBytes.SplitCommandLine | agent/tcf/framework/mdep.c:1259-1286 | splitting the command line at quotes recovers exactly the arguments when they contain no backslash |
| MdepBytes.ReadQuotedEscape | agent/tcf/framework/mdep.c:1275-1277 | an escaped argument followed by a closing quote reads back as the argument |
| MdepBytes.TrailingBackslashLost | agent/tcf/framework/mdep.c:1275-1277 | an argument ending in a backslash does not read back, because the backslash escapes the closing quote |
| MdepTime.FileTimeToUnixTime | agent/tcf/framework/mdep.c:236-243 | the result fits a signed 64-bit integer |
| MdepTime.FileTimeExact | agent/tcf/framework/mdep.c:236-243 | below 2^63 ticks the result is the 100 ns tick count divided by 10 minus the 1601-to-1970 offset in microseconds |
| MdepTime.UnixEpochIsZero | agent/tcf/framework/mdep.c:241 | the file time of 1970-01-01 maps to 0 |
| MdepTime.FileTimeMonotone | agent/tcf/framework/mdep.c:236-243 | a later file time never gives an earlier Unix time |
| MdepTime.CDivRem | agent/tcf/framework/mdep.c:256-257 | C division and remainder recombine to the dividend, and the remainder has the dividend's sign |
| MdepTime.SplitMicrosExact | agent/tcf/framework/mdep.c:256-257 | seconds and nanoseconds recombine to the microsecond count, with nanoseconds below 10^9 and a multiple of 1000 |
| MdepTime.ClockGettime | agent/tcf/framework/mdep.c:245-259 | a missing result pointer fails; otherwise the time is the split of the converted file time |
| MdepPath.Canonicalize | agent/tcf/framework/mdep.c:932-983 | the result is the canonical path of the input; only a leading `.` or `..` is resolved from the working directory, and any other relative path stays relative |
| MdepPath.Canonical | agent/tcf/framework/mdep.c:932-983 | the canonical path fits PATH_MAX and is non-empty for a non-empty input |
| MdepPath.GetCwd | agent/tcf/framework/mdep.c:937-938 | the buffer holds the working directory and a NUL |
| MdepPath.TrimComponent | agent/tcf/framework/mdep.c:944-945 | the buffer is cut back to before its last component |
| MdepPath.DropComponent | agent/tcf/framework/mdep.c:963-970 | dropping a component gives a shorter prefix that ends where a `/` stood |
| MdepPath.ScanLoop | agent/tcf/framework/mdep.c:949-977 | the buffer's new content is the scan of the rest of the path from the old content |
| MdepPath.CanonicalNoBackslash | agent/tcf/framework/mdep.c:951 | every backslash becomes a separator |
| MdepPath.CanonicalNoDoubleSlash | agent/tcf/framework/mdep.c:952-956 | runs of separators collapse to one |
| MdepPath.CanonicalNormal | agent/tcf/framework/mdep.c:932-983 | an absolute path that is already normal is returned unchanged |
| MdepPath.DotDotPops | agent/tcf/framework/mdep.c:965-971 | on two examples, `..` removes the previous component and stops at the root |
| MdepPath.SeparatorExamples | agent/tcf/framework/mdep.c:951-964 | on three examples, backslashes are unified, doubled separators and a `.` component are removed, and a trailing `/.` ends the scan |
| MdepPath.CanonicalDotFree | agent/tcf/framework/mdep.c:957-972 | for every path and a working directory free of dot segments, a result that did not fill the buffer holds no `/./`, does not end in `/.`, and, when absolute, holds no `..` component |
| MdepPath.ScanDotFree | agent/tcf/framework/mdep.c:949-977 | the scan keeps the buffer free of complete dot segments, so a scan that stops before the buffer is full ends free of them |
| MdepPath.DropDotFree | agent/tcf/framework/mdep.c:967-968 | cutting back a component of a buffer free of dot segments leaves one free of them |
| MdepPath.RelativeExamples | agent/tcf/framework/mdep.c:936-965 | on examples, `..` stays as text in a relative path such as `a/../b`, while a leading `./`, `../` or `.` is resolved from the working directory |
| Digits.HexNumberOfHex | agent/tcf/services/symbols_elf.c:1627-1641 | the hex digits written for a number read back as the number |
| Digits.HexLength | agent/tcf/services/symbols_elf.c:1627-1641 | a number below 16^k needs at most k hex digits |
| Digits.ReadHexAt | agent/tcf/services/symbols_elf.c:1708-1719 | reading hex digits yields their value modulo 2^64 and the count consumed |
| Digits.ReadHexOfHex | agent/tcf/services/symbols_elf.c:1708-1719 | a written 64-bit number reads back with its exact length |
| Digits.ReadIntAt | agent/tcf/services/symbols_elf.c:1721-1736 | reading an optional minus and decimal digits yields a 32-bit value and the count consumed |
| Digits.ReadIntOfDec | services/symbols_elf.c:655-670 | a 32-bit number in decimal reads back with its exact length |
| Digits.ReadIntOfTmpInt | agent/tcf/services/symbols_elf.c:1643-1660 | a number written into the buffer reads back, except INT_MIN |
| Digits.TmpIntMinLost | agent/tcf/services/symbols_elf.c:1647-1653 | INT_MIN is written as `-` followed by non-digits and reads back as 0 |
| Digits.HexFieldOf | agent/tcf/services/symbols_elf.c:1766-1767 | a hex field and its `.` separator read back as the value and the rest |
| Digits.IntFieldOf | agent/tcf/services/symbols_elf.c:1780-1781 | a decimal field and its `.` separator read back as the value and the rest |
| AgentSymbolId.Clip | agent/tcf/services/symbols_elf.c:1611-1616 | the buffer keeps at most 255 characters, and a text that fits is kept whole |
| AgentSymbolId.TmpBuf.AppChar | agent/tcf/services/symbols_elf.c:1614-1616 | a character is appended to what the buffer holds |
| AgentSymbolId.TmpBuf.AppStr | agent/tcf/services/symbols_elf.c:1618-1625 | a separator and a string are appended |
| AgentSymbolId.TmpBuf.AppHex | agent/tcf/services/symbols_elf.c:1627-1641 | a separator and the hex digits of the number are appended |
| AgentSymbolId.TmpBuf.AppInt | agent/tcf/services/symbols_elf.c:1643-1660 | a separator and the decimal text of the number are appended |
| AgentSymbolId.HexDigitsOf | agent/tcf/services/symbols_elf.c:1631-1636 | the digits produced least-significant first are the hex text reversed |
| AgentSymbolId.DecDigitsOf | agent/tcf/services/symbols_elf.c:1651-1655 | the digits produced with C division are the decimal text reversed |
| AgentSymbolId.CDigitsLength | agent/tcf/services/symbols_elf.c:1643-1660 | a 32-bit number needs at most 10 digits |
| AgentSymbolId.TmpBuf.Symbol2Id | agent/tcf/services/symbols_elf.c:1662-1706 | the identifier is the pseudo or file symbol text, clipped to the buffer |
| AgentSymbolId.TmpBuf.FileId | agent/tcf/services/symbols_elf.c:1676-1702 | the buffer holds `@S` and the file, object, table, frame, index, dimension, cardinal and context fields |
| AgentSymbolId.TmpBuf.PseudoId | agent/tcf/services/symbols_elf.c:1664-1675 | the buffer holds `@P`, the class, index and length, and then the base symbol's identifier |
| AgentSymbolId.CopyId | agent/tcf/services/symbols_elf.c:1668 | the base identifier is copied out whole |
| AgentSymbolId.IdText | agent/tcf/services/symbols_elf.c:1662-1706 | an identifier fits in 255 characters |
| AgentSymbolId.IdTextCString | agent/tcf/services/symbols_elf.c:1662-1706 | an identifier contains no NUL |
| AgentSymbolId.Id2Symbol | agent/tcf/services/symbols_elf.c:1738-1818 | decoding an identifier gives the symbol the text names, or the error the decoder reports |
| AgentSymbolId.Decode | agent/tcf/services/symbols_elf.c:1738-1818 | text not starting with `@P` or `@S` is an invalid context; `@P` gives a pseudo symbol and `@S` a file symbol |
| AgentSymbolId.Resolve | agent/tcf/services/symbols_elf.c:1788-1812 | an unknown context fails; without a file the object, variable and table are dropped; otherwise a file that does not open fails with the code `elf_open_inode` sets, and the table index must be in range |
| AgentSymbolId.ReadFileFields | agent/tcf/services/symbols_elf.c:1764-1787 | the fields after `@S` are read in their written order |
| AgentSymbolId.ClassRoundTrip | agent/tcf/services/symbols_elf.c:1766 | a class written as unsigned 64-bit hex reads back as the same 32-bit int |
| AgentSymbolId.MtimeRoundTrip | agent/tcf/services/symbols_elf.c:1772 | a modification time written as unsigned 64-bit hex reads back as the same signed value |
| AgentSymbolId.ParseFileText | agent/tcf/services/symbols_elf.c:1764-1787 | parsing a file identifier's fields gives back the symbol as written, with the frame as stored |
| AgentSymbolId.ParsePseudoText | agent/tcf/services/symbols_elf.c:1751-1763 | parsing a pseudo identifier gives back its class, index, length and base identifier |
| AgentSymbolId.FileIdRoundTrip | agent/tcf/services/symbols_elf.c:1662-1818 | decoding a file symbol's identifier resolves the symbol as written |
| AgentSymbolId.PseudoIdStep | agent/tcf/services/symbols_elf.c:1662-1818 | decoding a pseudo identifier decodes the base identifier and rebuilds the pseudo symbol on it |
| AgentSymbolId.IdRoundTrip | agent/tcf/services/symbols_elf.c:1662-1818 | every unclipped identifier without INT_MIN frames decodes back to the symbol as written and resolved |
| AgentSymbols.TagClass | agent/tcf/services/symbols_elf.c:404-482 | exactly the subprogram-like tags give the function class |
| AgentSymbols.TagClassTotal | agent/tcf/services/symbols_elf.c:404-482 | only an unknown tag gives the unknown class and composite tags give the type class |
| AgentSymbols.ElfClass | agent/tcf/services/symbols_elf.c:275-304 | functions, GNU ifuncs and untyped symbols in allocated sections are functions; objects are references; the rest are values |
| AgentSymbols.IsValidElfSymbol | agent/tcf/services/symbols_elf.c:1442-1452 | only untyped, function and object symbols qualify |
| AgentSymbols.ValidSymbolClass | agent/tcf/services/symbols_elf.c:1442-1452 | a valid symbol is a value exactly when it is untyped outside allocated sections |
| AgentSymbols.FirstValid | agent/tcf/services/symbols_elf.c:1461-1475 | the search stops at the first valid symbol and every earlier one is invalid |
| AgentSymbols.SymAddr | agent/tcf/services/symbols_elf.c:1463-1464 | a symbol's address is its value, plus the section address in a relocatable file, in 64 bits |
| AgentSymbols.FindByAddrFirstValid | agent/tcf/services/symbols_elf.c:1454-1495 | the first valid symbol found decides: a hit exactly when it covers the address; a PLT entry only when no symbol is valid and the section is `.plt` |
| AgentSymbols.PltIndex | agent/tcf/services/symbols_elf.c:1480-1487 | a PLT entry exists exactly when the address is past the first entry and the entry size is positive |
| AgentSymbols.PltAddress | agent/tcf/services/symbols_elf.c:3411-3416 | a PLT symbol's address fits 64 bits |
| AgentSymbols.PltRoundTrip | agent/tcf/services/symbols_elf.c:1480-1489 | the address of a PLT entry found for an address lies within one entry below it |
| AgentSymbols.MachineIsa | agent/tcf/services/symbols_elf.c:1873-1893 | ARM is never named by the machine table and uses mapping symbols |
| AgentSymbols.MappingIsa | agent/tcf/services/symbols_elf.c:1846-1851 | only names starting with `$` are mapping symbols |
| AgentSymbols.ArmIsa | agent/tcf/services/symbols_elf.c:1840-1872 | an ARM range is named ARM, Thumb, ThumbEE or Data and its bounds fit 64 bits |
| AgentSymbols.ArmIsaNearest | agent/tcf/services/symbols_elf.c:1840-1872 | an ISA is found exactly when some mapping symbol at or below the address names one; the nearest such symbol names the ISA and starts the range |
| AgentSymbols.NextMarker | agent/tcf/services/symbols_elf.c:1855-1867 | the range ends at the next `$` symbol, and no marker lies before it |
| AgentSymbols.WindowStart | agent/tcf/services/symbols_elf.c:1897-1898 | the 64 KiB window is aligned and contains the address |
| AgentSymbols.NarrowRange | agent/tcf/services/symbols_elf.c:1894-1919 | the range contains the address, stays inside its window, and below the top window no region boundary lies strictly inside it |
| AgentSymbols.Narrow | agent/tcf/services/symbols_elf.c:1902-1913 | one boundary shrinks the range around the address, and leaves it strictly outside the range |
| AgentSymbols.DefaultLowerBound | agent/tcf/services/symbols_elf.c:2121-2136 | the listed languages count from 1 and all others from 0 |
| AgentSymbols.ArrayIndexLength | agent/tcf/services/symbols_elf.c:2138-2158 | a count wins; without count or upper bound an enumeration has one entry per child and anything else 0 |
| AgentSymbols.ArrayIndexLengthBounds | agent/tcf/services/symbols_elf.c:2142-2147 | with bounds the length is upper+1-lower, using the language's default lower bound |
| AgentSymbols.ArrayIndexLengthWraps | agent/tcf/services/symbols_elf.c:2142-2147 | upper bound 2^64-1 with lower 0 wraps to length 0 |
| SymbolRank.Priority | agent/tcf/services/symbols_elf.c:694-708 | a priority lies between -5 and 3 |
| SymbolRank.PriorityFlags | agent/tcf/services/symbols_elf.c:694-708 | a definition ranks 4 above a declaration, external 2 above static, and a class type 1 below |
| SymbolRank.HasAddress | agent/tcf/services/symbols_elf.c:711-729 | as intended: an ELF candidate has an address unless its own entry is undefined or common; a DWARF object has one with a location or low PC |
| SymbolRank.TableIndexHidesUndefined | agent/tcf/services/symbols_elf.c:714-715 | as written, the test reads the index of the symbol table section itself, so an undefined or common ELF symbol is reported to have an address |
| SymbolRank.NoLocationOnlyUndefinedOrCommon | agent/tcf/services/symbols_elf.c:731-740 | as intended: a list of ELF candidates has no location information exactly when every one is undefined or common |
| SymbolRank.DefinedOutranksUndefined | agent/tcf/services/symbols_elf.c:757-770 | as intended: an ELF symbol defined in a section ranks above an undefined or common one |
| SymbolRank.FindSymbolList.NoLocationInfo | agent/tcf/services/symbols_elf.c:732-740 | the answer is true exactly when no candidate has an address under the intended test |
| SymbolRank.EquCmpIsLex | agent/tcf/services/symbols_elf.c:742-755 | the duplicate comparator orders by its key and is zero exactly for equal keys |
| SymbolRank.PrtCmpIsLex | agent/tcf/services/symbols_elf.c:757-798 | the priority comparator, with the intended address test, orders by its key |
| SymbolRank.LexTrans | agent/tcf/services/symbols_elf.c:742-798 | both comparators are transitive, as qsort needs |
| SymbolRank.FindSymbolList.Add | agent/tcf/services/symbols_elf.c:800-803 | a candidate is pushed at the front of the list |
| SymbolRank.FindSymbolList.AddObj | agent/tcf/services/symbols_elf.c:805-810 | a DWARF object is pushed at the front with its scope level |
| SymbolRank.NumberInto | agent/tcf/services/symbols_elf.c:837-845 | each candidate gets position count-index and is unmarked |
| SymbolRank.QSort | agent/tcf/services/symbols_elf.c:848 | the buffer is sorted by the comparator |
| SymbolRank.SortBySorted | agent/tcf/services/symbols_elf.c:855 | the sort is a permutation and its result is ordered |
| SymbolRank.MarkDuplicates | agent/tcf/services/symbols_elf.c:849-853 | each entry equal to its predecessor is marked duplicate |
| SymbolRank.Rebuild | agent/tcf/services/symbols_elf.c:856-861 | the unmarked entries are pushed on the list, reversing their order |
| SymbolRank.FindSymbolList.Sort | agent/tcf/services/symbols_elf.c:818-862 | lists shorter than two are untouched; otherwise the list becomes its ranked form |
| SymbolRank.RankedKeepsOneOfEach | agent/tcf/services/symbols_elf.c:818-862 | every candidate's key appears exactly once in the result |
| SymbolRank.RankedFromList | agent/tcf/services/symbols_elf.c:818-862 | every result entry is a numbered original candidate |
| SymbolRank.RankedNoDuplicates | agent/tcf/services/symbols_elf.c:818-862 | no two result entries compare equal as duplicates |
| SymbolRank.RankedOrder | agent/tcf/services/symbols_elf.c:818-862 | the result is strictly ordered by the priority comparator, best first |
| SymbolRank.RankedDistinctRank | agent/tcf/services/symbols_elf.c:818-862 | no two result entries tie on the priority key |
| ServiceSymbolId.FieldsOf | services/symbols_elf.c:608-640 | a symbol without a file writes zero device, inode and time, and without a table writes table 0 |
| ServiceSymbolId.IdText | services/symbols_elf.c:608-640 | an identifier is at most 255 characters |
| ServiceSymbolId.ReadFields | services/symbols_elf.c:693-714 | the fields after `SYM` are read in their written order |
| ServiceSymbolId.ParseFieldsText | services/symbols_elf.c:629-714 | writing in-range fields and reading them back is the identity |
| ServiceSymbolId.ClassRoundTrip | services/symbols_elf.c:695 | a class written as 32-bit hex reads back as the same int |
| ServiceSymbolId.Resolve | services/symbols_elf.c:715-736 | an unknown context fails; an unreadable frame and a file that does not open fail with the codes those lookups set; zero file fields give a symbol without file; a table index beyond the file's symbol sections fails |
| ServiceSymbolId.Decode | services/symbols_elf.c:672-742 | text not starting with `PTR` or `SYM` is an invalid context; `PTR` gives a pointer of the written size |
| ServiceSymbolId.Id2Symbol | services/symbols_elf.c:672-742 | decoding an identifier gives the symbol the text names, or the error reported |
| ServiceSymbolId.NoFileShortcut | services/symbols_elf.c:715-721 | zero device, inode and time with a known context decode to a symbol without a file |
| ServiceSymbolId.ResolveFields | services/symbols_elf.c:608-742 | resolving the written fields of a consistent symbol gives it back as written |
| ServiceSymbolId.PtrStep | services/symbols_elf.c:608-742 | decoding a pointer identifier decodes its base and wraps it with the size |
| ServiceSymbolId.PlainRoundTrip | services/symbols_elf.c:608-742 | a plain symbol's identifier decodes back to the symbol as written |
| ServiceSymbolId.IdRoundTrip | services/symbols_elf.c:608-742 | every unclipped identifier of a consistent symbol decodes back to the symbol as written |
| ServiceSymbols.SymAddress | services/symbols_elf.c:88-120 | an address exists exactly for defined symbols of the listed kinds; it is the value, relocated by the section in a relocatable file; otherwise the error is invalid address |
| ServiceSymbols.RelocatedInSection | services/symbols_elf.c:88-120 | a relocated symbol inside its section gets an address inside that section |
| ServiceSymbols.AddrMatch | services/symbols_elf.c:451-452 | a symbol covers the address in its size, a zero-size symbol just its own address |
| ServiceSymbols.ElfHitOf | services/symbols_elf.c:453-465 | functions are reported as functions and objects as references |
| ServiceSymbols.FindByAddr | services/symbols_elf.c:439-474 | the lookup succeeds exactly when one symbol matches, and reports the last match |
| ServiceSymbols.ScanTable | services/symbols_elf.c:445-470 | the table scan counts its matches from index 1 and keeps the last |
| ServiceSymbols.AddrHitsExact | services/symbols_elf.c:439-474 | a hit is exactly a matching symbol of some table, past index 0 |
| ServiceSymbols.FindByName | services/symbols_elf.c:236-295 | the lookup succeeds exactly when one candidate is found, and reports the last |
| ServiceSymbols.ScanChain | services/symbols_elf.c:243-291 | a hash chain's hits are counted and the last kept |
| ServiceSymbols.ScanEntry | services/symbols_elf.c:246-288 | a symbol entry's hits are counted and the last kept |
| ServiceSymbols.ScanUnit | services/symbols_elf.c:253-269 | a compile unit's objects with the name are counted and the last kept |
| ServiceSymbols.EntryHits | services/symbols_elf.c:247-288 | an entry yields hits exactly when it has the name and a non-zero address |
| ServiceSymbols.NameHitsOk | services/symbols_elf.c:236-295 | every hit is a named symbol with a non-zero address or a named DWARF object of its unit |
| ServiceSymbols.ObjectLength | services/symbols_elf.c:923-941 | a count wins; else upper+1-lower in 64 bits; else the number of enumerators; else 0 |
| ServiceSymbols.BoundsLength | services/symbols_elf.c:927-930 | with ordered bounds the length is the number of indexes from lower to upper |
| ServiceSymbols.InvertedBoundsWrap | services/symbols_elf.c:928 | a lower bound two above the upper wraps to 2^64-1 |
| ServiceSymbols.IndexAt | services/symbols_elf.c:1320-1327 | the dimension picks the index type when it exists |
| ServiceSymbols.SymbolLength | services/symbols_elf.c:1304-1337 | a pointer to a function fails; other pointers report their size, or 1 when the size is 0; a plain symbol with a size fails; an unpacking error is passed on; a plain symbol whose array type has the dimension succeeds with that dimension's length; other cases are unsupported |
| ServiceSymbols.GetSymbolLength | services/symbols_elf.c:1304-1337 | the method computes the length the function defines |
| ServiceSymbols.DimensionLength | services/symbols_elf.c:1304-1337 | the length of an array dimension is the size of its index range |
| ServiceSymbols.LeBytesRoundTrip | services/symbols_elf.c:1485-1488 | k little-endian bytes of a number below 256^k read back as the number |
| ServiceSymbols.PackedRoundTrip | services/symbols_elf.c:1481-1489 | the 8 packed bytes read back in the file's byte order |
| ServiceSymbols.PackValue | services/symbols_elf.c:1481-1489 | each byte goes to its little- or big-endian slot |
| ServiceSymbols.SymbolValue | services/symbols_elf.c:1464-1524 | pointers and sized symbols fail; an unpacking error is passed on; a symbol without a DWARF object is an invalid context; constant bytes held in memory are returned as they are; a constant number, or with no constant a successful read through the location, is packed into 8 bytes in the file's order; an access function on the constant is an invalid context |
| ServiceSymbols.ConstantValueRoundTrip | services/symbols_elf.c:1464-1524 | a 64-bit constant's value reads back from the packed bytes |
| Server.ScanServices | server/tcf/main/server.c:64-73 | the scan records exactly which of the five services the target offers |
| Server.ProxyServer.constructor | server/tcf/main/server.c:33-36 | the server starts without protocol, group, connections or listeners |
| Server.IniServerErrors | server/tcf/main/server.c:96-122 | a bad URL fails with ERR_OTHER; an unknown transport fails as invalid; otherwise the backend's error or success is returned |
| Server.ProxyPropsNamed | server/tcf/main/server.c:113-114 | the peer is named `TCF Proxy` and marked Proxy, and every other property is kept |
| Server.ProxyServer.IniServer | server/tcf/main/server.c:96-122 | on failure protocol and group are cleared and nothing is registered; on success the server listens on the proxy peer and the listener is added |
| Server.ProxyServer.NewConnection | server/tcf/main/server.c:38-43 | the protocol is referenced once more, and the channel gets the protocol, joins the group last and is started |
| Server.ProxyServer.RedirectionListener | server/tcf/main/server.c:45-94 | the services installed are those the listener's rules give for the target's state and offered services |
| Server.ConnectedListener | server/tcf/main/server.c:54-93 | a connected target gets the proxy's path map unless it offers all three of PathMap, LineNumbers and Symbols, plus the host services when it has a memory map |
| Server.HostCalls | server/tcf/main/server.c:78-92 | with a memory map each missing service is provided on the host, followed by the context proxy |
| Server.StartedTarget | server/tcf/main/server.c:46-53 | a started target gets at most line numbers and symbols, exactly as configured |
| Server.OwnPathMap | server/tcf/main/server.c:74-77 | the proxy installs its own path map exactly for a connected target that lacks one of PathMap, LineNumbers or Symbols |
| Server.ContextProxyForwarding | server/tcf/main/server.c:74-91 | the context proxy is created only for connected targets with a memory map, and forwards the path map exactly when the target has one and the proxy installed its own |
| Server.HostFillsGaps | server/tcf/main/server.c:78-92 | with a memory map the host supplies exactly the configured services the target lacks, and the context proxy exactly when configured |
| Server.NoMemoryMap | server/tcf/main/server.c:54-93 | without a memory map at most the path map is installed |

## Left out

- Threads, mutexes and condition variables are left out. The worker pool's lock-protected steps are modelled as atomic methods, and a thread's blocking is a state of the worker.
- System calls (`read`, `pread`, `stat`, `opendir`, …) are not modelled. Their return value and errno are an `Outcome` input to `AsyncReq.Execute`.
- The AIO path of `async_req_post` and the Windows and VxWorks variants of each request are left out. Only the thread-pool path is modelled.
- The event loop and `post_event` are left out. Posted events are recorded in the pool's event log.
- Transports, sockets and the JSON string quoting belong to other files. The quoting is a function parameter of `PeerLocator.PeerToJson`.
- `peer.c` is not part of this model. `peer_server_addprop` is assumed to replace the value of an existing name in place and to append a new name.
- The ID property special case of `peer.c` is not modelled.
- `channel_close`, the server `close` callbacks and stream writes are not modelled. They are recorded as calls and appended bytes.
- ChannelHub.Hub.CloseChannels: `channel_close` only calls the transport's `close` callback, and `is_channel_closed` asks the transport's `is_closed`. The model assumes that the callback marks the channel closed at once, so closing sets `closed[c]`. ChannelHub.Hub.TriggerShutdown and ChannelHub.CloseAll rely on the same assumption.
- ChannelHub.Hub.CloseServers: a server's `close` is a transport callback. The model assumes that it unregisters the server, so the server list ends empty.
- The three listener arrays share one `Registry` class, since they behave alike.
- The shutdown object of `shutdown.c` is not part of this model. Its states are a field of the pool.
- AgentSymbols.NarrowRange: a failed `elf_get_map` leaves the range at `ip` with size 1. The method models only a successful map read, whose regions are its input.
- AgentSymbols.NarrowRange: in the topmost 64 KiB window of the address space, `addr + size` wraps in C. The model does not state the boundary guarantee there, and only proves that the range stays inside the window.
- SymbolRank.PrtCmp: it uses the corrected address test of the Findings row, the symbol's own `st_shndx`. As written, C counts every ELF candidate as addressed, so an undefined ELF candidate at a deeper level outranks a defined one there.
- SymbolRank.FindSymbolList.NoLocationInfo: it uses the same corrected test. For a list holding only an undefined ELF candidate, C as written answers 0 and the model answers true.
- SymbolRank.DefinedOutranksUndefined: it states the intended ranking, not the one C as written gives.
- SymbolRank.FindSymbolList.Sort: it ranks with the corrected `PrtCmp`, and so do the `Ranked` lemmas.
- SymbolRank.Ranked: `qsort` is modelled as a stable insertion sort. C's `qsort` is not stable. When two candidates tie under a comparator but differ in other fields (`pos`, `level`), C may keep either one. `Ranked`, and `SymbolRank.FindSymbolList.Sort` with `list == Ranked(old(list))`, fix one of the outcomes C allows. The `Ranked` lemmas are proved for that outcome only.
- Pointers (symbol object, section and file identities) are natural numbers. Pointer values printed into identifiers are those numbers.
- DWARF and ELF reads (`get_num_prop`, `elf_find_symbol_by_address`, hash chains, `unpack_elf_symbol_info`, section and file lookups) are inputs: sequences, maps and outcome values.
- The run-time to link-time address mapping is the identity in the model.
- `get_sym_context`, `elf_open_inode` and the type unpacking are inputs. The error codes they set are inputs too: the `frameError` and `openError` fields of `Lookups`, and the error of the `unpack` outcome.
- ServiceSymbols.SymbolValue: the evaluation of the DWARF constant-value and location properties is an input. A value held in target memory is returned as given.
- ServiceSymbols.FindByAddr: the `cnt` counter is an unbounded count rather than a 32-bit `unsigned`. It would need 2^32 matches to wrap.
- ServiceSymbols.FindByName: the same unbounded counter applies here.
- MdepBytes.MakeCmdFromArgs: a backslash inside an argument is not escaped. The round trip is proved only for arguments without a backslash, and `TrailingBackslashLost` exhibits the failing case.
- Constants missing from the files are chosen in the model and used consistently:
  - the values of `STACK_NO_FRAME` and `STACK_TOP_FRAME`;
  - `ENOSYS` = 38 and `PATH_MAX` = 1024;
  - the `SYM_CLASS_*` numbers;
  - the ELF machine and section numbers, which come from the ELF ABI.
- MdepPath.Canonicalize: `getcwd` is the parameter `cwd`, a C string shorter than PATH_MAX.
- MdepPath.DotDotPops: it checks two inputs. The rule for all inputs is MdepPath.CanonicalDotFree.
- MdepPath.SeparatorExamples: it checks three inputs. The rules for all inputs are MdepPath.CanonicalNoBackslash, MdepPath.CanonicalNoDoubleSlash and MdepPath.CanonicalDotFree.
- MdepPath.RelativeExamples: it checks four inputs.
- MdepPath.CanonicalDotFree: it says nothing about a result that fills the buffer, since `PATH_MAX - 1` characters cut the scan short, possibly just after a `/.`.
- The VxWorks-only backslash handling is the only `canonicalize_file_name` modelled.
- AgentSymbolId.IdRoundTrip: it excludes identifiers clipped at 255 characters and frames equal to INT_MIN. `Digits.TmpIntMinLost` shows that the INT_MIN frame does not read back.
- ServiceSymbolId.IdRoundTrip: it excludes identifiers longer than 255 characters, which `snprintf` truncates.
- MdepTime.ClockGettime: the conversion of `select`'s timeout and the clock source are left out. The file time is an input.
- Server configuration macros (`SERVICE_*`, `ENABLE_ContextProxy`) are the `Config` value.
- Server.ProxyServer.IniServer: backend server creation is the `backendError` parameter, and `protocol_reference` is a counter.
- The ARM mapping-symbol iteration (`elf_prev_symbol_by_address`/`elf_next_symbol_by_address`) is a given sorted sequence of section symbols with a current index.

## Findings

| source | as written | input that shows it | evidently intended | confidence | as-written member | corrected member |
|---|---|---|---|---|---|---|
| agent/tcf/framework/mdep.c:1566-1580 | `strlcat` returns the final destination length plus the source length | an empty 4-byte buffer and source `ab`: both bytes fit, yet the result is 4, which callers read as truncation | the BSD result: the initial destination length plus the source length, so that result >= size exactly when the source was cut | not executed | MdepBytes.StrlcatReportsFalseTruncation | MdepBytes.StrlcatBsdDetectsTruncation |
| agent/tcf/services/symbols_elf.c:714-715 | `has_symbol_address` compares `sym->tbl->index`, the position of the symbol table section in the file, with SHN_UNDEF and SHN_COMMON | an undefined ELF symbol found through a `.symtab` at section 5: the test sees 5 and reports an address, so the symbol ranks above addressless candidates and the list is said to have location information | compare the symbol's own section index (`st_shndx`), as the comment above the function and the reader in services/symbols_elf.c do | not executed | SymbolRank.TableIndexHidesUndefined | SymbolRank.NoLocationOnlyUndefinedOrCommon |
