# Iris: a Dafny model

Iris is a component-based software-radio runtime. This project models the parts of it whose correctness is
not visible from one function at a time, and proves what they promise. `dafny verify dfyconfig.toml`
checks everything.

| files | what they model |
|---|---|
| `Utf8`, `XmlBase`, `XmlText`, `XmlTextLaws`, `XmlSpellingLaws` | escaping, character references, and the reading of text however it is spelt |
| `XmlTree`, `XmlLayoutLaws`, `XmlTreeLaws` | the printer, and the recursive-descent parser of elements in any layout |
| `RadioTypes`, `XmlCodec`, `XmlCodecLaws`, `XmlReadingLaws` | radio descriptions as element trees, what a file says, and the whole way through text |
| `Dom`, `DomClone`, `AttributeSet` | the sibling pointers of the nodes, the ring of attributes, and deep copies of both |
| `Wrappers`, `Sequences`, `Arithmetic` | results, list edits and remainders shared by the others |
| `DataBuffer`, `DataBufferLaws` | the bounded ring between two engines |
| `StackDataBuffer`, `StackDataBufferLaws` | the bounded queue of a stack component |
| `TranslatorChain`, `TranslatorChainLaws`, `TranslatorChainProgress` | queue, out translator, ring, in translator, queue |
| `CommandPrison`, `CommandPrisonLaws`, `CommandPrisonProgress` | threads waiting in cages for a named command |
| `PhyDataBuffer`, `PhyDataBufferLaws`, `PhyEngine`, `PhyEngineLaws` | the growing ring inside an engine and the loop that drains it |
| `MemoryManager`, `MemoryManagerLaws` | the allocator with its two lists |
| `RadioRepresentation`, `RadioLaws` | the graphs built from a description and the three copies of its components |
| `XmlRadioLaws` | saving a running radio and loading it again |
| `ReconfigurationManager`, `EngineManager`, `ReconfigurationLaws`, `ReconfigurationOrder` | comparing radios, splitting a set of changes by engine, and when the order of changes matters |
| `EngineLoading`, `EngineLoadingLaws` | loading engines in topological order and passing buffers along their links |

**Form.** Where the source changes fields or runs a loop, the model is a method, in a class if the source has
one, and its `ensures` equates the result or the new state with a function; the files named `...Laws` prove
what that function means. Pointer structures (`Dom`, `AttributeSet`) are real pointer structures with a ghost
sequence. A text pointer is the text that is left from it on; a null pointer is `None`. Characters are octets.

**Threads.** A buffer shared by threads is a labelled step system: taking a mutex, evaluating a condition,
going to sleep, waking with or without a notification, changing the state, unlocking and notifying are
separate steps, in the order of the code, and properties hold for every interleaving of any number of
threads. `DataBuffer` has one reader and one writer, as the code requires. `wait` releases its mutex and
goes to sleep in one step, as condition variables do. Where the source runs code between two such points on
state nobody else can reach, that code is one step; the out translator's three assignments to its slot are
three.

**Side conditions.** They are stated as predicates: engine names are distinct, component names are globally
distinct and components name their engine (`RadioLaws.WellFormed`); a ring has at least one slot
(`DataBuffer.FlagsFit`); element trees that are printed have legal names, distinct attribute names and values in
UTF-8 without NUL and `&#x` (`XmlTreeLaws.Writable`). Where a property the source seems to promise holds only under a
condition, the theorem is an equivalence with that condition.

## Where the code and its documentation differ

The model follows the code.

- `irisapi/StackDataBuffer.h:111-116`: `hasData` is documented to tell whether there is data; it tells whether
  there is none.
- `src/ticpp/src/tinyxmlparser.cpp:66-126`: `ConvertUTF32ToUTF8` accepts numbers up to 0x1FFFFF, but the table of
  lead octets, by which the result is read again, ends at 0x13FFFF. All code points lie below.
- `src/ticpp/src/tinyxmlparser.cpp:449-507`: references are summed with a multiplier of 32 bits. A hexadecimal
  one is read exactly if and only if its number is below 2^32, a decimal one if and only if it is below 5 * 10^9.
- `src/ticpp/src/tinyxmlparser.cpp:1162-1178`: a repeated attribute name makes `Parse` return null with no error
  that names it (`XmlTreeLaws.ReadBackIff`).
- `iris/MemoryManager.h:64-76`: the constructor of a node clears its parameter instead of its field when
  the allocation fails, so the exception for lack of memory is thrown for empty requests only, and a refused
  allocation becomes a block at the null address.
- `src/engines/phyengine/PhyDataBuffer.h:132-137`: growing at the end of the vector keeps the order only when the
  read index is 0; otherwise as many sets as the read index counts are lost.
- `src/RadioRepresentation.cpp:242-257`: a reconfiguration that names an existing engine without the component
  replaces that engine on the engine graph by a blank description, so that every further reconfiguration that
  names the engine throws (`ReconfigurationOrder.ForeignEntryLosesEngine`); one that names no engine throws after
  the radio graph may have changed.
- `src/RadioRepresentation.cpp:295-296`: inside an engine an unknown sink is reported under the name of the source.
- `src/EngineManager.cpp:157-188`: an entry that names no engine is dropped silently here, while
  `reconfigureRepresentation` throws for it.
- `src/EngineManager.cpp:236-241`: links are matched by their source end alone, so two links from one port to two
  engines share a buffer, which has one reader by design.
- `src/XmlParser.cpp:95-231`: names and values are lowered when they are read, but not when they are set, so a
  capital letter in a running radio does not survive saving and loading (`XmlRadioLaws.CapitalIsLost`).
- `src/XmlParser.cpp:341-358`: a controller is written without its name and read back under its class.

## Model

| member | source | states |
|---|---|---|
| Utf8.ConvertUTF32ToUTF8 | src/ticpp/src/tinyxmlparser.cpp:88-126 | the fall-through switch, run as the loop it amounts to, writes the UTF-8 octets of its input: a lead octet and six-bit tails, with the source's own masks, and nothing at 0x200000 and above |
| Utf8.DecodeInverts | src/ticpp/src/tinyxmlparser.cpp:88-126 | decoding the octets gives back the number, for every input the converter accepts |
| Utf8.LeadAnnouncesLength | src/ticpp/src/tinyxmlparser.cpp:66-84 | the table entry of the lead octet is the number of octets written exactly below 0x140000: for every code point, but not for everything the converter accepts |
| Utf8.PrefixFree | src/ticpp/src/tinyxmlparser.cpp:88-126 | no encoding of a code point is a prefix of another, so the octets of a text determine its code points |
| XmlBase.SkipWhiteSpace | src/ticpp/src/tinyxmlparser.cpp:314-362 | skips white space and the three octet sequences that count as a byte order mark; null on null and on the empty text |
| XmlBase.ReadName | src/ticpp/src/tinyxmlparser.cpp:401-436 | reads the longest name, or null if the text does not start like one |
| XmlBase.NameReadBack | src/ticpp/src/tinyxmlparser.cpp:401-436 | a legal name followed by something that is not a name character is read back whole |
| XmlBase.MatchTag | src/ticpp/src/tinyxmlparser.cpp:534-572 | compares a text with a tag, with or without case, as StringEqual does |
| XmlText.EncodeString | src/ticpp/src/tinyxml.cpp:50-131 | escapes markup and control characters and copies hexadecimal references through |
| XmlText.ReadReference | src/ticpp/src/tinyxmlparser.cpp:438-512 | finds the semicolon and reads the digits backwards with a 32-bit multiplier that wraps |
| XmlText.ScanBack | src/ticpp/src/tinyxmlparser.cpp:462-508 | the backward loop: null on a character that is not a digit, else the wrapped sum |
| XmlText.GetEntity | src/ticpp/src/tinyxmlparser.cpp:438-531 | numeric reference, one of five names, or the character itself after dropping an unknown ampersand |
| XmlText.GetChar | src/ticpp/include/tinyxml.h:342-376 | one character by its lead octet, through GetEntity if it is an ampersand, padded with NUL where the text ends early |
| XmlText.ReadText | src/ticpp/src/tinyxmlparser.cpp:574-638 | reads to the end tag, keeping white space or condensing runs of it to one space |
| XmlTextLaws.DecimalReadExactlyBelowLimit | src/ticpp/src/tinyxmlparser.cpp:479-508 | a decimal reference, with any number of leading zeros, is read exactly if and only if its number is below 5 * 10^9, where a tenth digit of 5 no longer fits in 32 bits |
| XmlTextLaws.DecimalMisread | src/ticpp/src/tinyxmlparser.cpp:479-508 | the smallest one that is misread: 5000000000 |
| XmlTextLaws.HexReadExactlyBelow2To32 | src/ticpp/src/tinyxmlparser.cpp:462-492 | a hexadecimal reference, with any number of leading zeros, is read exactly if and only if its number is below 2^32 |
| XmlTextLaws.ReferenceReadBack | src/ticpp/src/tinyxmlparser.cpp:438-512 | a numeric reference to any code point is replaced by its UTF-8 encoding and reading goes on after the semicolon |
| XmlTextLaws.ReferenceRefused | src/ticpp/src/tinyxmlparser.cpp:449-512 | a numeric reference with anything but digits in it is null, and so is one without a semicolon |
| XmlTextLaws.AmpersandDropped | src/ticpp/src/tinyxmlparser.cpp:514-531 | an ampersand before none of the five names and no `#` is dropped, and reading goes on right behind it |
| XmlTextLaws.DigitsAre | src/ticpp/src/tinyxmlparser.cpp:466-505 | which characters are decimal and hexadecimal digits, of both cases, and what each is worth |
| XmlSpellingLaws.GlyphRead | src/ticpp/include/tinyxml.h:342-376 | every spelling of a character (bare in one to four octets, one of the five entities, decimal or hexadecimal reference) is read as the character, and reading stops right behind it |
| XmlSpellingLaws.CutSequenceRead | src/ticpp/include/tinyxml.h:357-368 | where the text ends inside an octet sequence the missing octets are NUL |
| XmlSpellingLaws.VerbatimRead | src/ticpp/src/tinyxmlparser.cpp:574-596 | untrimmed reading of any spelling of a text gives the text, white space and all, up to the closing quote or the end |
| XmlSpellingLaws.TrimmedRead | src/ticpp/src/tinyxmlparser.cpp:597-638 | trimmed reading of any spelling: white space (codes 9 to 13 and 32) and byte order marks in front are skipped, every run of white space inside is one space, none is left at the end, and everything else, references to white space included, is what it stands for |
| XmlSpellingLaws.EscapeUndone | src/ticpp/src/tinyxmlparser.cpp:574-596 | untrimmed reading up to the closing quote undoes EncodeString for every text in UTF-8 without NUL and `&#x` |
| XmlSpellingLaws.EscapeSqueezed | src/ticpp/src/tinyxmlparser.cpp:597-638 | trimmed reading up to `<` gives the text with outer spaces dropped and inner runs collapsed, control characters surviving as references |
| XmlSpellingLaws.SqueezingChangesOnlySpaces | src/ticpp/src/tinyxmlparser.cpp:597-632 | that collapsed form is the text itself exactly when the text is collapsed already, collapsing twice is collapsing once, and everything but spaces is kept in order |
| XmlSpellingLaws.HexReferenceIsCopied | src/ticpp/src/tinyxml.cpp:50-131 | a hexadecimal reference in a text is written as it stands, and so comes back as the character it refers to |
| XmlTree.Printer.PrintAttribute | src/ticpp/src/tinyxml.cpp:1213-1236 | name, equals sign and escaped value, between single quotes if the value has a double one |
| XmlTree.Printer.VisitEnter | src/ticpp/src/tinyxml.cpp:1841-1876 | the opening tag with its attributes, closed at once if there are no children; the only child being a text is remembered |
| XmlTree.Printer.VisitExit | src/ticpp/src/tinyxml.cpp:1878-1901 | the closing tag if there are children, and the depth as before |
| XmlTree.Printer.VisitText | src/ticpp/src/tinyxml.cpp:1904-1929 | the escaped text |
| XmlTree.Printer.Accept | src/ticpp/src/tinyxml.cpp:845-856 | visiting a tree appends exactly its printed form, whatever the printer was in the middle of |
| XmlTree.ParseAttribute | src/ticpp/src/tinyxmlparser.cpp:1398-1473 | name, equals sign and value in either quotes or none, or the error |
| XmlTree.Parse | src/ticpp/src/tinyxmlparser.cpp:1058-1183 | an element: name, attributes, children and end tag, or the first error; a repeated attribute name returns null without recording an error |
| XmlTree.ReadValue | src/ticpp/src/tinyxmlparser.cpp:1186-1256 | texts and elements up to an end tag, blank texts dropped; mutually recursive with Parse over the text that is left |
| XmlLayoutLaws.AttributeRead | src/ticpp/src/tinyxmlparser.cpp:1398-1473 | an attribute with any white space around its equals sign, its value between either quotes or without any, is read as its name and value, and what follows is left |
| XmlLayoutLaws.AttributesRead | src/ticpp/src/tinyxmlparser.cpp:1091-1180 | any list of attributes with any white space before each, or none behind a quote, is taken in, in order, up to the first name seen before, where parsing returns null without an error |
| XmlLayoutLaws.LayoutRead | src/ticpp/src/tinyxmlparser.cpp:1058-1256 | every layout of an element tree (white space and byte order marks before tags, attributes, equals signs, brackets and children, either quotes, any spelling of the characters, `/>` or an end tag) is parsed to exactly that tree and leaves exactly what followed, if and only if no element repeats an attribute name; otherwise the error says where |
| XmlLayoutLaws.ChildrenRead | src/ticpp/src/tinyxmlparser.cpp:1186-1256 | the children of any layout are read in order up to what stands behind them, texts of white space alone dropped |
| XmlLayoutLaws.NoElement | src/ticpp/src/tinyxmlparser.cpp:1058-1090 | what does not begin with `<` is no element, and `<` without a name behind it fails as such |
| XmlLayoutLaws.GapAfterOpen | src/ticpp/src/tinyxmlparser.cpp:1079-1090 | white space between `<` and the name of the outermost element makes no difference |
| XmlLayoutLaws.RefusedTag | src/ticpp/src/tinyxmlparser.cpp:1104-1160 | behind the attributes of a tag the end of the text, a slash without its bracket and any character that begins no name end in their errors |
| XmlLayoutLaws.RefusedAttribute | src/ticpp/src/tinyxmlparser.cpp:1398-1430 | a name without an equals sign, or with nothing behind it, is an error of the attributes |
| XmlLayoutLaws.RefusedValue | src/ticpp/src/tinyxmlparser.cpp:1432-1473 | a value without its closing quote and a quote inside a bare value end in their errors |
| XmlLayoutLaws.RefusedEnd | src/ticpp/src/tinyxmlparser.cpp:1127-1150 | an element closed by another end tag, or by none, is refused |
| XmlTreeLaws.PrintedIsLaid | src/ticpp/src/tinyxml.cpp:1841-1929 | the printed form of a tree is one of its layouts: one space before each attribute and before `/>`, double quotes unless the value has one, every character escaped as EncodeString does |
| XmlTreeLaws.ElementReadBack | src/ticpp/src/tinyxmlparser.cpp:1058-1256 | parsing the printed form of a writable tree, its texts in UTF-8, gives exactly that tree and leaves exactly what followed it |
| XmlTreeLaws.ReadBackIff | src/ticpp/src/tinyxmlparser.cpp:1162-1178 | of the printed trees that differ from writable ones only in that attribute names may repeat, exactly those without a repetition are read back; one in the element itself returns null and records no error, one below it records an error about the value of an element |
| XmlCodec.WriteComponent | src/XmlParser.cpp:282-311 | name and class, then a child per parameter and per port, in order |
| XmlCodec.WriteEngine | src/XmlParser.cpp:323-339 | name and class, then a child per component |
| XmlCodec.WriteController | src/XmlParser.cpp:341-358 | the class only, then a child per parameter: the name is not written |
| XmlCodec.WriteLink | src/XmlParser.cpp:313-321 | both ends as component, dot and port; the engines are not written |
| XmlCodec.WriteSoftwareRadio | src/XmlParser.cpp:360-392 | controllers, engines and links, in order |
| XmlCodec.CheckChildren | src/XmlParser.cpp:54-66 | the first child element that may not stand at this level |
| XmlCodec.ReadComponent | src/XmlParser.cpp:151-202 | a component in lower case with its parameters and ports, or the illegal element |
| XmlCodec.ReadEngine | src/XmlParser.cpp:204-238 | an engine whose components are marked as its own, or the first failure |
| XmlCodec.ReadController | src/XmlParser.cpp:106-149 | a controller, or the illegal element |
| XmlCodec.ReadLink | src/XmlParser.cpp:54-104 | both ends taken apart at the dots, from either pair of attribute names |
| XmlCodec.ReadSoftwareRadio | src/XmlParser.cpp:240-280 | the three groups in order, or the first failure |
| XmlCodecLaws.ComponentReadBack | src/XmlParser.cpp:151-202 | reading a written component gives it in lower case without an owner, its parameters and ports in order |
| XmlCodecLaws.EngineReadBack | src/XmlParser.cpp:204-238 | reading a written engine gives it in lower case with its components marked as its own |
| XmlCodecLaws.ControllerReadBack | src/XmlParser.cpp:106-149 | a controller comes back under its class for a name |
| XmlCodecLaws.EndReadBack | src/XmlParser.cpp:82-92 | a dotted link end gives back its two names if and only if both are non-empty and without dots |
| XmlReadingLaws.RadioIsRead | src/XmlParser.cpp:54-280 | any element tree is read as what it says, by the names of its elements and attributes: each description in the order of its elements, every value that of the first attribute of its name in lower case, a link from `source`/`sink` or else `above`/`below`, a controller without a name called after its class; or it has a fault, and the error names the first illegal element or the link end without two names |
| XmlReadingLaws.FileIsRead | src/XmlParser.cpp:54-280 | the same from the text of a radio file in any layout |
| XmlReadingLaws.LowerIs | src/XmlParser.cpp:95-98 | which letters are lowered, and to what |
| XmlCodecLaws.LinkReadBack | src/XmlParser.cpp:54-104 | a link comes back exactly when its four names are lower case, non-empty and without dots and no engine is named |
| XmlCodecLaws.RadioReadBack | src/XmlParser.cpp:240-280 | reading a written radio reproduces it if and only if it is normal |
| XmlCodecLaws.TextRoundTrip | src/XmlParser.cpp:54-392 | writing, printing, parsing and reading: a radio whose strings survive as text is parsed to the end and comes back unchanged if and only if it is normal |
| XmlRadioLaws.LoadBuilds | src/XmlParser.cpp:429-440 | loading the root element of a safe, normal, well-named radio succeeds exactly when its links name components; then the three copies agree and no link is lost |
| XmlRadioLaws.SaveAndLoad | src/XmlParser.cpp:54-392 | a running radio, after any reconfigurations of its own components that leave its strings safe, written, printed, parsed, read and built again is the running radio with its parameter values in lower case: the same descriptions, radio graph, external links and edges between engines, all but the stale component copies inside each engine's own graph; so it is the running radio if and only if its values are in lower case |
| XmlRadioLaws.CapitalIsLost | src/XmlParser.cpp:54-392 | one reconfiguration to a capital letter: the running radio has it, the loaded one the small letter |
| Dom.DomNode.constructor | src/ticpp/src/tinyxml.cpp:134-143 | a node without parent, siblings and children |
| Dom.DomNode.LinkEndChild | src/ticpp/src/tinyxml.cpp:183-207 | the node becomes the last child; the pointers of all lists stay in order and no other list changes; a document is refused |
| Dom.DomNode.InsertBeforeChild | src/ticpp/src/tinyxml.cpp:225-254 | the node stands right before the given child, or nothing happens if that is no child or the node is a document |
| Dom.DomNode.InsertAfterChild | src/ticpp/src/tinyxml.cpp:257-286 | the node stands right after the given child, under the same conditions |
| Dom.DomNode.ReplaceChild | src/ticpp/src/tinyxml.cpp:289-314 | the node takes the place of the given child, which is in no list afterwards |
| Dom.DomNode.RemoveChild | src/ticpp/src/tinyxml.cpp:317-336 | the child is taken out and its neighbours are joined; what is no child is refused |
| Dom.DomNode.FirstChild | src/ticpp/src/tinyxml.cpp:339-348 | the first child with the value, or null if there is none |
| Dom.DomNode.ReadForward | src/ticpp/src/tinyxml.cpp:339-348 | following `next` from the first child meets the children in order |
| Dom.DomNode.ReadBackward | src/ticpp/src/tinyxml.cpp:352-361 | following `prev` from the last child meets them in the opposite order |
| DomClone.LinkClone | src/ticpp/src/tinyxml.cpp:838-842 | linking the copy of a child appends what the child says to what the node says, and nothing else changes |
| DomClone.CloneNode | src/ticpp/src/tinyxml.cpp:823-836 | the copy of one node has its value and, if it is an element, its attributes in order, in a new attribute set |
| DomClone.Clone | src/ticpp/src/tinyxml.cpp:823-867 | the copy says what the original says, values, attributes and children, to any depth and in order, and shares no node and no attribute set with it |
| AttributeSet.AttributeSet.constructor | src/ticpp/src/tinyxml.cpp:1575-1579 | an empty ring: the sentinel is its own neighbour |
| AttributeSet.AttributeSet.Find | src/ticpp/src/tinyxml.cpp:1624-1632 | the attribute of that name, or null |
| AttributeSet.AttributeSet.Add | src/ticpp/src/tinyxml.cpp:1589-1602 | the attribute becomes the last and the ring stays closed |
| AttributeSet.AttributeSet.Remove | src/ticpp/src/tinyxml.cpp:1604-1620 | exactly that attribute is taken out, the others keep their order, and it points nowhere |
| AttributeSet.AttributeSet.SetAttribute | src/ticpp/src/tinyxml.cpp:747-766 | changes the value in place if the name is there, else appends |
| AttributeSet.AttributeSet.CopyTo | src/ticpp/src/tinyxml.cpp:830-836 | sets every attribute in the other element, in order, and leaves this one alone |
| AttributeSet.SetIsMapUpdate | src/ticpp/src/tinyxml.cpp:747-766 | setting is a map update that keeps every name once and every place |
| AttributeSet.RemoveIsMapRemoval | src/ticpp/src/tinyxml.cpp:1604-1620 | removing forgets one name and nothing else |
| AttributeSet.CopyReproduces | src/ticpp/src/tinyxml.cpp:830-836 | copying into an empty element reproduces attributes and order |
| DataBuffer.DataBuffer.constructor | iris/DataBuffer.h:70-83 | an empty ring with both lock flags clear |
| DataBuffer.DataBuffer.HasData | iris/DataBuffer.h:112-116 | whether anything is unread |
| DataBuffer.DataBuffer.GetReadData | iris/DataBuffer.h:122-130 | throws if the last set was not released, waits on empty, else hands out the read slot |
| DataBuffer.DataBuffer.GetWriteData | iris/DataBuffer.h:137-148 | throws, waits on full, or hands out the write slot resized and with its time stamp cleared |
| DataBuffer.DataBuffer.ReleaseReadData | iris/DataBuffer.h:154-165 | index, flags and lock flag after giving back the read slot |
| DataBuffer.DataBuffer.ReleaseWriteData | iris/DataBuffer.h:171-182 | the same for the write slot |
| DataBufferLaws.WriteSlotIsFree | iris/DataBuffer.h:137-148 | as long as the ring is not full, writing into the slot handed out touches nothing unread |
| DataBufferLaws.GrantedSlotIsCleared | iris/DataBuffer.h:135-151 | the writer is handed a slot of the size it asks for without a time stamp, whatever was in it; the data that fits, the sample rate, all other slots and what the reader sees are as before |
| DataBufferLaws.ReleaseWriteAppends | iris/DataBuffer.h:171-182 | releasing a write appends the slot to the unread sets, across the wrap-around, and keeps flags and indices in agreement |
| DataBufferLaws.ReleaseReadRemoves | iris/DataBuffer.h:154-165 | releasing a read removes exactly the oldest unread set |
| DataBufferLaws.StepKeepsInv | iris/DataBuffer.h:122-182 | every step of writer and reader, spurious wake-ups included, keeps: released writes = released reads + unread sets, flags fit indices, one mutex holder, no get ever throws, and a side asleep although it could pass has its notification coming |
| DataBufferLaws.RunKeepsInv | iris/DataBuffer.h:122-182 | hence every reachable state does, and the capacity never changes |
| DataBufferLaws.SlotsAreExclusive | iris/DataBuffer.h:122-182 | the slot the writer holds is neither the reader's nor any unread one, and the unread sets lie in order in the slots from the read index on |
| DataBufferLaws.ReaderSeesTheOldest | iris/DataBuffer.h:122-130 | what the reader holds is the oldest undelivered set, and no step changes it under its hands |
| DataBufferLaws.NeverBothAsleep | iris/DataBuffer.h:122-182 | reader and writer are never asleep together |
| DataBufferLaws.SideProgresses | iris/DataBuffer.h:122-182 | a side inside a call can proceed, or the holder of the mutex can, unless it sleeps on an empty or full ring |
| StackDataBuffer.StackDataBuffer.PopDataSet | irisapi/StackDataBuffer.h:129-141 | one pass of the loop: waits on empty, else takes the oldest |
| StackDataBuffer.StackDataBuffer.PushDataSet | irisapi/StackDataBuffer.h:147-157 | one pass of the loop: waits on full, else appends |
| StackDataBuffer.StackDataBuffer.HasData | irisapi/StackDataBuffer.h:112-116 | answers whether the queue is empty, against its name |
| StackDataBuffer.StackDataBuffer.IsFull | irisapi/StackDataBuffer.h:119-123 | whether the queue has reached its bound |
| StackDataBufferLaws.StepKeepsInv | irisapi/StackDataBuffer.h:129-157 | every step of any number of producers and consumers keeps the queue, the mutex and the balance of wake-ups |
| StackDataBufferLaws.StepKeepsWakeUps | irisapi/StackDataBuffer.h:129-157 | while somebody sleeps, what he waits for is covered by threads woken but not yet rechecked and threads between their move and their notification, although notify_one comes after unlock |
| StackDataBufferLaws.RunKeepsInv | irisapi/StackDataBuffer.h:129-157 | hence no reachable state has lost a wake-up, a set or the order |
| StackDataBufferLaws.NoMutualSleep | irisapi/StackDataBuffer.h:129-157 | with room for one set a producer and a consumer are never both asleep with no wake-up in flight |
| StackDataBufferLaws.NoRoomDeadlocks | irisapi/StackDataBuffer.h:91-93 | with a capacity of zero they are: a run of six steps |
| StackDataBufferLaws.AwakeProgresses | irisapi/StackDataBuffer.h:129-157 | while a thread is inside a call and not asleep, some call can proceed |
| StackDataBufferLaws.SleeperIsRemembered | irisapi/StackDataBuffer.h:129-157 | a thread asleep although its condition holds is on its way to be woken: some call can proceed |
| StackDataBufferLaws.StandstillIsHonest | irisapi/StackDataBuffer.h:129-157 | if nothing can proceed, all threads inside wait on the same side, for an empty or for a full queue |
| StackDataBufferLaws.StepRefinesQueue | irisapi/StackDataBuffer.h:129-157 | each step leaves the queue alone, appends one set where there is room, or takes the earliest pushed set not yet taken |
| TranslatorChainLaws.StepKeepsInv | src/engines/stackengine/StackOutTranslator.cpp:72-94 | every step of the chain keeps the place of every set: popped = written + the one carried, sent up = delivered + the one pushed but not released, slot contents included |
| TranslatorChainLaws.RunKeepsInv | src/engines/stackengine/StackInTranslator.cpp:72-95 | hence every reachable state does, for any other producers below and any other threads above |
| TranslatorChainLaws.DeliveredInOrder | src/engines/stackengine/StackInTranslator.cpp:72-104 | what has been sent upward is, set by set with payload and time stamp, the first part of what was accepted, and at most queue capacity + 1 + ring capacity sets are under way |
| TranslatorChainLaws.UndeliveredIsBounded | src/engines/stackengine/StackOutTranslator.cpp:72-94 | the undelivered sets are those queued, the one carried and those in the ring |
| TranslatorChainLaws.InProgresses | src/engines/stackengine/StackInTranslator.cpp:72-95 | with room above, the in translator or somebody it waits for can proceed unless it waits on an empty ring |
| TranslatorChainLaws.OutProgresses | src/engines/stackengine/StackOutTranslator.cpp:72-94 | with room in the ring, the out translator or somebody it waits for can proceed unless it waits on an empty queue |
| TranslatorChainLaws.NeverStalls | src/engines/stackengine/StackEngine.cpp:256-308 | while an accepted set has not been sent up and the upper queue has room, some step other than a new call or a spurious wake-up is enabled |
| TranslatorChainProgress.StepCost | src/engines/stackengine/StackEngine.cpp:256-308 | every such step lowers a cost of the chain, summed over all threads, queued sets, ring slots and the two translators; a call of another thread or a spurious wake-up raises it by at most 53 |
| TranslatorChainProgress.ProgressIsBounded | src/engines/stackengine/StackEngine.cpp:256-308 | so in every interleaving the number of such steps is bounded by the cost at the start and 53 for each outside call or spurious wake-up |
| TranslatorChainProgress.ComesToRest | src/engines/stackengine/StackEngine.cpp:256-308 | left alone, the chain comes to rest within its cost |
| TranslatorChainProgress.DeliveredInTheEnd | src/engines/stackengine/StackEngine.cpp:256-308 | after any run from the beginning, every way of going on without outside calls ends within the cost, and where nothing is left to do everything accepted has been sent up in order, or the upper queue is full |
| CommandPrisonLaws.StepKeepsInv | irisapi/CommandPrison.h:64-141 | every step of any number of trapped and releasing threads keeps the two levels of locks, the filing of the cages and the notifications owed |
| CommandPrisonLaws.RunKeepsInv | irisapi/CommandPrison.h:64-141 | hence every reachable state does |
| CommandPrisonLaws.TrappedOrFreed | irisapi/CommandPrison.h:64-124 | a thread inside its cage is still filed with the cage locked, or freed by a command of exactly its name; trap never returns another |
| CommandPrisonLaws.ReleaseIsExact | irisapi/CommandPrison.h:130-141 | when a release removes its range it has freed, with its own command, all threads filed under the name and no other, and the rest stays filed |
| CommandPrisonLaws.ReleaseFreesWhatItFound | irisapi/CommandPrison.h:130-141 | whatever the other threads do meanwhile, that is everything that was filed when the release looked: nobody slips between insertion and sleep |
| CommandPrisonLaws.RangeStays | irisapi/CommandPrison.h:130-141 | while a release goes through its range nothing is filed and nothing taken out |
| CommandPrisonLaws.NobodyIsStuck | irisapi/CommandPrison.h:64-141 | hand-over-hand locking does not deadlock: only a thread asleep in a locked cage may wait |
| CommandPrisonProgress.StepCost | irisapi/CommandPrison.h:64-141 | every step but calls and spurious wake-ups lowers a cost summed over all threads and all filed cages without a command; a call or spurious wake-up raises it by at most 14 |
| CommandPrisonProgress.ProgressIsBounded | irisapi/CommandPrison.h:64-141 | so in every interleaving the number of such steps is bounded by the cost at the start and 14 for each call or spurious wake-up |
| CommandPrisonProgress.FreedReturns | irisapi/CommandPrison.h:64-141 | a thread whose cage a release has opened returns with that command, however the threads go on, by the time nothing is left to do, and without new calls that is within the cost |
| CommandPrisonProgress.ComesToRest | irisapi/CommandPrison.h:64-141 | such a state of rest is reached from every reachable state |
| CommandPrisonProgress.WaitersRemain | irisapi/CommandPrison.h:64-141 | at rest no release is under way, and who is still in trap sleeps in a cage that is filed, locked and without a command |
| PhyDataBuffer.PhyDataBuffer.GetWriteData | src/engines/phyengine/PhyDataBuffer.h:128-144 | on a full ring a slot is appended to the vector and handed out; the flags do not change |
| PhyDataBuffer.PhyDataBuffer.ReleaseWriteData | src/engines/phyengine/PhyDataBuffer.h:166-175 | index, flags and lock flag after a write |
| PhyDataBuffer.PhyDataBuffer.ReleaseReadData | src/engines/phyengine/PhyDataBuffer.h:150-160 | index, flags and lock flag after a read |
| PhyDataBuffer.PhyDataBuffer.Drain | src/engines/phyengine/PhyEngine.cpp:167-171 | reading while there is data |
| PhyDataBufferLaws.DrainedIsContents | src/engines/phyengine/PhyDataBuffer.h:104-160 | reading until empty gives the contents in order |
| PhyDataBufferLaws.WriteIsFifo | src/engines/phyengine/PhyDataBuffer.h:128-175 | a write is seen as one more set at the end if and only if the ring was not full or its read index was 0; otherwise exactly read-index many sets are lost |
| PhyDataBufferLaws.RunIsFifo | src/engines/phyengine/PhyDataBuffer.h:114-175 | along every run that grows only at read index 0 the ring is an unbounded queue |
| PhyDataBufferLaws.RoundReadsBack | src/engines/phyengine/PhyDataBuffer.h:114-175 | a batch written into an empty ring is drained unchanged if and only if it fits or the read index was 0, and the ring then holds it |
| PhyDataBufferLaws.EqualRoundsReadBack | src/engines/phyengine/PhyDataBuffer.h:114-175 | any number of rounds of k sets from a new ring read back what was written, and the capacity settles at the larger of k and the old one |
| PhyDataBufferLaws.RoundsReadBackIff | src/engines/phyengine/PhyDataBuffer.h:114-175 | any rounds read back what they wrote if and only if, whenever a batch is larger than the capacity, the number of sets written since the last growth is a multiple of the capacity |
| PhyDataBufferLaws.UnequalRoundsLose | src/engines/phyengine/PhyDataBuffer.h:128-144 | one set, then three, in a new ring of two slots: the second round does not come back |
| PhyEngine.PhyEngine.DoProcess | src/engines/phyengine/PhyEngine.cpp:158-171 | one call of a component: the read, the new state and the writes in order |
| PhyEngine.PhyEngine.OneTurn | src/engines/phyengine/PhyEngine.cpp:155-174 | the body of the main loop terminates: the first component once, every other while its input has data |
| PhyEngineLaws.DrainReads | src/engines/phyengine/PhyEngine.cpp:164-172 | draining a buffer feeds all of it to the one component behind it |
| PhyEngineLaws.DrainOther | src/engines/phyengine/PhyEngine.cpp:164-172 | meanwhile buffers on other wires only receive what that component writes |
| PhyEngineLaws.TurnFits | src/engines/phyengine/PhyEngine.cpp:155-174 | after each component's turn every buffer is drained or holds exactly what was written to it |
| PhyEngineLaws.TurnDrainsEverything | src/engines/phyengine/PhyEngine.cpp:155-174 | a turn empties every internal buffer, and a component has processed exactly what was written to it, in order, if and only if that fitted or the read index was 0 |
| PhyEngineLaws.TurnComputes | src/engines/phyengine/PhyEngine.cpp:155-174 | the first component has been called once without input and every other once for each set it has read, in order, each call in the state the one before has left; a buffer has been given exactly what these calls of the component before it return for it, in order |
| PhyEngineLaws.EveryTurnComputes | src/engines/phyengine/PhyEngine.cpp:138-175 | the same in each of any number of turns |
| PhyEngineLaws.EveryTurnDrains | src/engines/phyengine/PhyEngine.cpp:138-175 | the same in each of any number of turns: all buffers are empty after it, and what each component processed in it is what was written to its buffer if and only if that fitted or the read index was 0 when the turn began |
| MemoryManager.MemoryManager.AllocateBlock | src/MemoryManager.cpp:53-94 | the first free block that is large enough leaves the free list, else a new one is put in its place by address; the bytes requested are counted either way |
| MemoryManager.MemoryManager.ReleaseBlock | src/MemoryManager.cpp:97-116 | the block goes to its place by size; an unknown address changes nothing |
| MemoryManager.MemoryManager.GetTotalMemoryUsed | src/MemoryManager.cpp:119-129 | the sum over all blocks |
| MemoryManager.MemoryManager.GetTotalMemoryLocked | src/MemoryManager.cpp:132-142 | that sum less the free bytes |
| MemoryManager.MemoryManager.GetBlockSize | src/MemoryManager.cpp:151-168 | the size of the block at the address, 0 if there is none |
| MemoryManager.MemoryManager.Reset | src/MemoryManager.cpp:171-182 | no blocks and nothing requested |
| MemoryManagerLaws.ReuseIsBestFit | src/MemoryManager.cpp:63-77 | a reused block was free, fits, is the smallest that fits, and is locked afterwards; nothing else changes |
| MemoryManagerLaws.NewOnlyIfNoneFits | src/MemoryManager.cpp:79-93 | a new block is made only if none fits, keeps the list ordered by address and overlaps nothing |
| MemoryManagerLaws.OutOfMemoryOnlyForZero | src/MemoryManager.cpp:79-84 | the exception is thrown exactly for an empty request with nothing free; a refused allocation is handed out as the null address |
| MemoryManagerLaws.RefusedIsListed | src/MemoryManager.cpp:79-93 | a refused allocation is handed out as the null address and listed with the size that was asked for |
| MemoryManagerLaws.ReleaseFrees | src/MemoryManager.cpp:97-116 | releasing a locked block frees exactly it and keeps the free list ordered by size |
| MemoryManagerLaws.UnknownIsIgnored | src/MemoryManager.cpp:97-116 | releasing an address that no block has changes nothing |
| MemoryManagerLaws.ReleaseThenAllocate | src/MemoryManager.cpp:53-116 | asking for a released block's size at once gives that block back and restores both lists |
| MemoryManagerLaws.UsedIsLockedPlusFree | src/MemoryManager.cpp:119-142 | used bytes are the bytes of the locked blocks plus those of the free ones, summed block by block |
| MemoryManagerLaws.AllocateTracks | src/MemoryManager.cpp:53-94 | an allocation hands out an address nobody holds |
| MemoryManagerLaws.RunIsSafe | src/MemoryManager.cpp:53-142 | over any run of well-behaved clients the lists stay valid, no locked block is handed out again, and no byte is lost |
| RadioRepresentation.LookUpComponent | src/RadioRepresentation.cpp:305-317 | the first vertex of that name |
| RadioRepresentation.LookUpEngine | src/RadioRepresentation.cpp:319-331 | the first engine of that name |
| RadioRepresentation.RadioRepresentation.AddComponents | src/RadioRepresentation.cpp:97-108 | all components become vertices, engine by engine |
| RadioRepresentation.RadioRepresentation.AddLinks | src/RadioRepresentation.cpp:110-123 | one edge per link, or an exception if a link names an unknown component |
| RadioRepresentation.RadioRepresentation.ClassifyLinks | src/RadioRepresentation.cpp:125-151 | the edges name the engines of their components; links go to the external ones or to the engine they are inside of |
| RadioRepresentation.RadioRepresentation.BuildEngineDescriptionGraph | src/RadioRepresentation.cpp:278-303 | the graph of one engine, or an exception |
| RadioRepresentation.RadioRepresentation.AddExternalLinks | src/RadioRepresentation.cpp:159-169 | external links are listed by the engines at both their ends |
| RadioRepresentation.RadioRepresentation.BuildEngineGraph | src/RadioRepresentation.cpp:171-193 | engines as vertices and external links as edges, or an exception |
| RadioRepresentation.RadioRepresentation.BuildGraphs | src/RadioRepresentation.cpp:93-195 | succeeds exactly when every link resolves at every stage, and then leaves the graphs described |
| RadioRepresentation.RadioRepresentation.ReconfigureParameter | src/RadioRepresentation.cpp:210-258 | the three copies one after the other, with what is left behind by an exception |
| RadioRepresentation.RadioRepresentation.ReconfigureRepresentation | src/RadioRepresentation.cpp:198-208 | one reconfiguration after the other, up to the first exception |
| RadioRepresentation.RadioRepresentation.GetParameterValue | src/RadioRepresentation.cpp:260-276 | the value on the radio graph, or the empty string |
| RadioLaws.BuildSucceedsIff | src/RadioRepresentation.cpp:93-195 | on a fresh representation buildGraphs succeeds if and only if every link names existing components |
| RadioLaws.BuildFailureNames | src/RadioRepresentation.cpp:110-123 | what is thrown otherwise names the first component that a link refers to and no engine has, the source before the sink |
| RadioLaws.BuiltEdge | src/RadioRepresentation.cpp:110-151 | edge k carries link k, joins the components it names and names their engines |
| RadioLaws.EngineEdgeJoins | src/RadioRepresentation.cpp:171-193 | edge k of the engine graph carries external link k and leads from the engine that has the link's source component to the one that has its sink component |
| RadioLaws.LinksAreSorted | src/RadioRepresentation.cpp:125-169 | the external links are those between engines, in the order of the links; an engine lists first the links inside it, then the external ones that touch it, each in that order |
| RadioLaws.InnerEdgeJoins | src/RadioRepresentation.cpp:278-303 | the graph of an engine has its components for vertices and one edge per inner link, joining the components the link names |
| RadioLaws.LinkPlacement | src/RadioRepresentation.cpp:125-169 | an internal link is listed by its one engine and no other, an external one by exactly the two engines it joins |
| RadioLaws.BuildConservesLinks | src/RadioRepresentation.cpp:93-195 | edges inside engines plus edges between engines are as many as the links |
| RadioLaws.BuiltAgrees | src/RadioRepresentation.cpp:93-195 | afterwards engine descriptions, radio graph and engine graph show the same components |
| RadioLaws.OwnReconfigurationAgrees | src/RadioRepresentation.cpp:210-258 | a reconfiguration of a component in its own engine changes all three copies alike and throws nothing |
| RadioLaws.ForeignReconfiguration | src/RadioRepresentation.cpp:210-258 | a reconfiguration of a component in an engine that does not have it leaves the engine descriptions alone, changes the radio graph, and puts a blank engine on the engine graph or throws |
| RadioLaws.UnknownEngineThrows | src/RadioRepresentation.cpp:250-256 | naming no engine throws, and at most the radio graph has changed by then |
| RadioLaws.ForeignReconfigurationDisagrees | src/RadioRepresentation.cpp:229-258 | naming another engine throws or leaves the copies in disagreement, unless that engine is blank and the value is the old one |
| RadioLaws.ForeignReconfigurationExample | src/RadioRepresentation.cpp:229-258 | two engines for which it throws nothing and leaves three copies that differ |
| RadioLaws.ReconfigureAgreesIff | src/RadioRepresentation.cpp:210-258 | so nothing is thrown and the copies agree if and only if the component's own engine is named or nothing changes, and the latter needs a blank engine |
| RadioLaws.ReconfigurationsAgree | src/RadioRepresentation.cpp:198-208 | any sequence of own reconfigurations keeps them in agreement and the edges untouched |
| RadioLaws.ValueIsTheEngines | src/RadioRepresentation.cpp:260-276 | getParameterValue answers what getEngines shows, for every component |
| RadioLaws.UnknownHasNoValue | src/RadioRepresentation.cpp:260-276 | for a component or a parameter that does not exist it answers the empty string |
| RadioLaws.ReconfigureSets | src/RadioRepresentation.cpp:210-276 | afterwards the parameter has the new value and every other parameter of every component its old one |
| ReconfigurationManager.CompareRadios | src/ReconfigurationManager.cpp:45-70 | the three nested comparisons, appended in order |
| ReconfigurationManager.CheckEngine | src/ReconfigurationManager.cpp:72-87 | the components of two matching engines |
| ReconfigurationManager.CheckComponent | src/ReconfigurationManager.cpp:89-111 | the parameters of two matching components |
| ReconfigurationLaws.DiffHas | src/ReconfigurationManager.cpp:53-111 | every parameter whose counterpart has another value is in the diff |
| ReconfigurationLaws.DiffFrom | src/ReconfigurationManager.cpp:53-111 | nothing else is |
| ReconfigurationLaws.DiffIsListed | src/ReconfigurationManager.cpp:45-111 | the diff is one entry for each pair of parameters of one name with different values in an engine and the first of the same name and kind, and in a component of it and the first there of the same name, kind and engine; in the order of engines, components and parameters, and nothing else |
| ReconfigurationLaws.MatchedGetsNewValue | src/ReconfigurationManager.cpp:53-111 | after applying the diff every matched parameter to which the counterpart gives one value only has that value |
| ReconfigurationLaws.UnmatchedStays | src/ReconfigurationManager.cpp:53-111 | and every other parameter its own |
| ReconfigurationLaws.DiffConvergesIff | src/ReconfigurationManager.cpp:45-111 | comparing again finds nothing if and only if no matched parameter is given two values |
| ReconfigurationLaws.CompareThenReconfigureConverges | src/ReconfigurationManager.cpp:45-111 | the same for whole representations: no exception, the three copies agree, matched parameters that are said once have the new value, unmatched ones the old one, and the second comparison is empty under that condition |
| EngineManager.EngineManager.ReconfigureRadio | src/EngineManager.cpp:157-188 | every running engine up to the one whose group throws is sent its own set, if there is one, the others nothing; the representation is reconfigured group by group, up to that exception |
| EngineManager.EngineManager.Separate | src/EngineManager.cpp:164-180 | the parametric and structural entries that name one engine, in order |
| ReconfigurationLaws.SentIsWhatNamesIt | src/EngineManager.cpp:164-184 | an engine is sent nothing if and only if no entry names it, and otherwise one set, which holds exactly the parametric and exactly the structural entries that name it, each in the order of the list |
| ReconfigurationLaws.SplitIsGrouped | src/EngineManager.cpp:157-188 | for every list and all engines, applying the groups in engine order is applying the list sorted into groups, up to the first exception |
| ReconfigurationLaws.SplitIsInOrderIff | src/EngineManager.cpp:157-188 | when each entry names its component's engine or no engine at all, the split throws nothing and does what the entries of the first kind do in their order; the whole list in its own order ends alike, in exception, engines and graphs, if and only if there are no entries of the second kind |
| ReconfigurationLaws.UnknownEntryExample | src/EngineManager.cpp:157-188 | one entry for an unknown engine: nothing happens when split, an exception and a changed radio graph in order |
| ReconfigurationLaws.ForeignEntryMatters | src/EngineManager.cpp:157-188 | an entry for a component of another engine makes the order matter although nothing is thrown |
| ReconfigurationOrder.ListLeaves | src/RadioRepresentation.cpp:198-258 | a list with non-empty engine names is applied without an exception if and only if its entries name engines and components of the radio and only the last entry for an engine names a component of another; then every component, every engine and the engine graph are what a fold over the list says, foreign entries included |
| ReconfigurationOrder.OrderMattersIff | src/EngineManager.cpp:157-188 | for every such list the split throws nothing either, and the two ways end alike if and only if the grouped list gives every parameter the same last value, and lets every engine take over the same last value, as the list in its own order |
| ReconfigurationOrder.OneNameSuffices | src/EngineManager.cpp:157-188 | they do when every component is named under one engine only, its own or not |
| ReconfigurationOrder.ForeignEntryLosesEngine | src/RadioRepresentation.cpp:248-257 | after one entry that names an engine for a component of another, every further entry that names the engine throws, its own included |
| ReconfigurationLaws.EachReachesOneEngine | src/EngineManager.cpp:168-172 | an entry reaches the engine it names as often as it is listed, and no other |
| ReconfigurationLaws.OrderIsKept | src/EngineManager.cpp:168-172 | and entries of one engine keep their order |
| EngineLoading.LoadRadio | src/EngineManager.cpp:83-112 | the engines are loaded in topological order, each with the buffers of its incoming edges, and its new buffers are put on its outgoing edges |
| EngineLoading.Connect | src/EngineManager.cpp:101-110 | every new buffer that matches the edge becomes its buffer in turn and takes over its description |
| EngineLoadingLaws.LoadedInv | src/EngineManager.cpp:83-112 | after each engine, the edges of loaded engines have the last buffer that matches them, the others none, and every buffer is described by the last edge it was put on |
| EngineLoadingLaws.EveryInputIsGiven | src/EngineManager.cpp:86-112 | every engine is given one buffer per incoming edge, in the order of the edges: the one the edge has when all engines are loaded; none is missing if engines return what their links need |
| EngineLoadingLaws.SharedIffSamePort | src/EngineManager.cpp:97-111 | two edges end up with the same buffer if and only if their links leave the same port of the same component |
| EngineLoadingLaws.FoundByItsLink | src/EngineManager.cpp:97-111 | the buffer of an edge is described by the last edge from the same port, so a link leads to its buffer if no other leaves its port |

## Left out

- XmlTree.Parse: comments, CDATA sections, declarations, style sheets and unknown nodes end in an error of their own; Iris writes none of them below its declaration.
- XmlTree.Printer.VisitText: the branch for CDATA sections.
- XmlTree.Printer.Accept: stream printing only; the indented form adds white space that the reader drops.
- XmlTreeLaws.ElementReadBack: texts that the reader would collapse, drop as blank, strip of a byte order mark or merge with a neighbour are not writable; what becomes of all but the last is settled by `XmlLayoutLaws.LayoutRead`.
- XmlTree.ParseAttribute: when the closing quote is missing the original steps past the end of the text; the model stops there.
- XmlText.GetChar: a character announced by its lead octet but cut off by the end of the text is padded with NUL and ends the text; the original leaves its cursor beyond the end.
- XmlText.GetEntity: reading beyond the NUL that ends the text, as the original does for a truncated name, is an end of the text here.
- Encodings other than UTF-8, and row and column stamping.
- XmlTree.ReadValue: the tree is built as a value; linking nodes in place is the subject of `Dom` and `AttributeSet`, which the parser model does not call.
- Dom.DomNode.InsertBeforeChild: the clone of the argument is made before the call.
- Dom.DomNode.InsertAfterChild: the clone of the argument is made before the call.
- Dom.DomNode.ReplaceChild: the clone of the argument is made before the call; the replaced node is unlinked but its destruction is not modelled.
- Dom.DomNode.RemoveChild: the node is unlinked; the destruction of its subtree is not modelled.
- DomClone.Clone: the attribute set that is a member of an element is found through a map; documents below the node are excluded, because `LinkEndChild` drops their copies (only `ReplaceChild` can put one there).
- Dom.DomNode.LinkEndChild: the model does not rule out linking a node below its own descendant, which the source does not check either.
- XmlCodecLaws.TextRoundTrip: the root element; the XML declaration before it and the document around it are not modelled.
- XmlRadioLaws.LoadBuilds: the root element; declaration and document as for `XmlCodecLaws.TextRoundTrip`.
- XmlRadioLaws.SaveAndLoad: the root element, as for `XmlCodecLaws.TextRoundTrip`. The graph inside each engine description is excepted, because a reconfiguration leaves it stale and loading builds it anew; the changes name components of the engines they name; values that the text does not preserve (not UTF-8, with NUL or `&#x`) are excluded.
- XmlCodec.ReadLink: an end with fewer than two tokens is an error here; the original dereferences the end of its token sequence.
- DataBuffer.DataBuffer.GetReadData: one pass with the mutex held; waiting and waking are steps of the system. A release without a get before it does not occur there.
- DataBuffer.DataBuffer.GetWriteData: one pass with the mutex held, as for reading.
- StackDataBuffer.StackDataBuffer.PopDataSet: one pass through the loop with the mutex held; waiting and waking are steps of the system.
- StackDataBuffer.StackDataBuffer.PushDataSet: one pass through the loop with the mutex held, as for popping.
- Thread interruption and the start, stop and join of threads: the loops run forever.
- StackDataBuffer.StackDataBuffer.HasData: the lock around the query is not modelled.
- StackDataBuffer.StackDataBuffer.IsFull: the source locks a temporary, which protects nothing; no lock is modelled.
- TranslatorChainProgress.DeliveredInTheEnd: about runs in which enabled steps are eventually taken, which the scheduler is trusted to do; the upper queue is emptied by calls of other threads, which are not part of such runs.
- TranslatorChainLaws.NeverStalls: that a step is enabled; that the steps lead to delivery is `TranslatorChainProgress.DeliveredInTheEnd`.
- CommandPrisonLaws.ReleaseIsExact: cages of equal names are kept in the order of their insertion, which the source's multimap does since C++11; no property depends on it.
- CommandPrisonProgress.FreedReturns: about runs in which enabled steps are eventually taken, which the scheduler is trusted to do.
- PhyEngine.PhyEngine.DoProcess: external buffers and exceptions of the component, as for `OneTurn`.
- PhyEngine.PhyEngine.OneTurn: external buffers, the reconfiguration queue at the head of the loop and exceptions from components; a component is a function of its own state and the set it reads, writing finitely many sets to its own wires.
- PhyEngineLaws.TurnDrainsEverything: the topological order is given; `checkGraph` is empty in the source, so one source and one input per other component are assumed.
- EngineLoading.LoadRadio: an engine is a function from its input buffers to its new ones; creating engines, controllers and, inside a PHY engine, the buffers between components by the types of their ports is not modelled.
- EngineLoadingLaws.SharedIffSamePort: assumes that an engine returns a buffer for each link that leaves it and that buffers are new objects.
- MemoryManager.MemoryManager.AllocateBlock: the counter of requested bytes is unbounded, and the mutex around each operation makes it one step.
- MemoryManagerLaws.RunIsSafe: clients release only what they hold and ask for at least one byte, and the system grants memory that overlaps no earlier block.
- RadioRepresentation.RadioRepresentation.BuildGraphs: after an exception the half-built graphs are not specified, only what stays as it was.
- ReconfigurationLaws.SplitIsInOrderIff: entries for a component of another engine, for which the order matters (`ReconfigurationLaws.ForeignEntryMatters`), are the subject of `ReconfigurationOrder.OrderMattersIff`.
- ReconfigurationOrder.OrderMattersIff: lists that throw in their own order are not compared with their split, whose state at its own exception is given by `ReconfigurationLaws.SplitIsGrouped`; entries with an empty engine name are excluded, because a blank engine has that name.
- RadioLaws.OwnReconfigurationAgrees: says nothing about the graph inside each engine description, which the source does not refresh.
- Structural reconfigurations are split by engine but, as in the source, not applied.
- Shared libraries, repositories of components and controllers, file access, logging, clocks, the launcher and floating-point parameters.
- Graph containers are sequences of vertices and edges in insertion order.
