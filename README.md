# KernelHaven core, modelled in Dafny

This project models the deterministic core of KernelHaven, an infrastructure for
analysing product lines (the Linux kernel and others). KernelHaven's text formats,
formula handling and keyed data structures are modelled and proved here:

- **JSON** (`json_*.dfy`). `JsonGrammar` gives the language that `JsonParser` accepts as
  functions over the remaining input. Whitespace, escapes and numbers follow sections 2
  and 4 to 7 of RFC 8259, and the nesting limit is 1200. The class
  `JsonParsing.JsonParser` is proved to consume exactly what the grammar reads.
  The JSON files also cover:
  - the escaping of `JsonString`;
  - the containers `JsonObject` (insertion-ordered map) and `JsonList`, as classes;
  - the pretty printer.
- **CSV** (`csv_*.dfy`). `CsvReader` reads a row character by character with a peek
  buffer, handling quoted fields and the line endings `\r`, `\n` and `\r\n`. `CsvWriter`
  quotes fields and accepts rows of one class only. `CsvRoundTrip` proves that the reader
  reads back what the writer writes.
- **Boolean formulas** (`logic_*.dfy`). The formula datatype comes with its precedence
  and parenthesising `toString`. `CStyleBooleanGrammar`, the formula lexer and the
  range-splitting parser are modelled, and so are the simplifier, the three-valued
  evaluator, variable replacement, the variable finder and `DisjunctionQueue`.
- **C preprocessor expressions** (`cpp_*.dfy`, `number_utils.dfy`). The pieces are:
  - `CppParser`'s lexer and the bracket-nesting stage;
  - the literal, function-call and unary-operator passes;
  - the operator resolver, which splits a list at an operator of lowest precedence;
  - the `CppOperator` table;
  - `NumberUtils`' integer recognition and conversion.
- **Configuration and models**:
  - `Configuration`'s registry of settings over a properties map, with list settings,
    included files and the unused-key report;
  - `Setting`/`ListSetting` defaults;
  - `BuildModel`'s lookup of a presence condition by file or directory key;
  - `VariabilityVariable` (locations, equality, hash code, JSON form) and
    `HierarchicalVariable` (parent/children links, nesting depth, list serialization);
  - the DIMACS extractor, the configured pipeline's component strings, and the
    table-collection suffixes.
- **Serialisation**:
  - the four-field CSV form of a variability variable;
  - the CSV form of a `SyntaxElement` (`SyntaxElementCsvUtil`) and the element's
    nested/relations bookkeeping;
  - `CodeModelCache`, which writes elements depth first as `class;level;csv` lines and
    reads them back with a stack of open elements. The source file that is read back is
    proved to hold the tree that was written.

Java's exceptions are the `Fail` case of `Wrappers.Result` and `null` is `Option.None`.
`int` and `long` arithmetic, `Integer.parseInt`, `String.trim` and `String.split` are
written out in `JavaText`. Objects whose fields the source updates in place are classes
with `modifies` clauses. Pure functions are functions.

## Model

| member | source | states |
|---|---|---|
| JsonValues.Find | src/net/ssehub/kernel_haven/util/io/json/JsonObject.java:62-64 | the position of the key's entry, or -1 exactly when no entry has the key; no earlier entry has it |
| JsonValues.Get | src/net/ssehub/kernel_haven/util/io/json/JsonObject.java:62-64 | getElement finds an element exactly when the key is present |
| JsonValues.Put | src/net/ssehub/kernel_haven/util/io/json/JsonObject.java:51-53 | putElement: the key then maps to the new element, every other key keeps its element, a present key keeps its position and a new key is appended last, distinct keys stay distinct |
| JsonValues.PutPut | src/net/ssehub/kernel_haven/util/io/json/JsonObject.java:51-53 | a second put under the same key overwrites the first and leaves the entry where the first put placed it |
| JsonValues.Remove | src/net/ssehub/kernel_haven/util/io/json/JsonObject.java:225-227 | removeElement: the key is gone, every other key keeps its element, the size drops by one exactly when the key was present |
| JsonValues.RemoveAtGet | src/net/ssehub/kernel_haven/util/io/json/JsonObject.java:225-227 | dropping one entry leaves the lookup of every other key unchanged |
| JsonValues.EquivReflexive | src/net/ssehub/kernel_haven/util/io/json/JsonObject.java:275-282 | every well-formed JSON value equals itself under the element-wise and map-wise equals |
| JsonValues.ObjectEquivIgnoresOrder | src/net/ssehub/kernel_haven/util/io/json/JsonObject.java:275-282 | two objects with the same entries in a different order are equal: object equality is map equality |
| JsonStrings.EscapeChar | src/net/ssehub/kernel_haven/util/io/json/JsonString.java:80-109 | each of the seven escaped characters becomes a backslash and one more character; every other character is copied |
| JsonStrings.EscapeConcat | src/net/ssehub/kernel_haven/util/io/json/JsonString.java:80-109 | escaping works character by character: the escape of a concatenation is the concatenation of the escapes |
| JsonStrings.JsonEscape | src/net/ssehub/kernel_haven/util/io/json/JsonString.java:77-113 | the builder loop produces the escape of the whole input |
| JsonStrings.EscapeLength | src/net/ssehub/kernel_haven/util/io/json/JsonString.java:77-113 | the output is longer than the input by the number of escaped characters in it |
| JsonStrings.EscapeLengthBound | src/net/ssehub/kernel_haven/util/io/json/JsonString.java:77-113 | the output is never shorter than the input, and has the same length exactly when none of the seven characters occurs |
| JsonStrings.CountZeroIff | src/net/ssehub/kernel_haven/util/io/json/JsonString.java:77-113 | no character needs escaping exactly when the count of escaped characters is zero |
| JsonStrings.EscapeIdentity | src/net/ssehub/kernel_haven/util/io/json/JsonString.java:77-113 | a string without any of the seven characters is returned unchanged |
| JsonStrings.EscapeHasNoRawBreaks | src/net/ssehub/kernel_haven/util/io/json/JsonString.java:77-113 | the escaped text holds no raw line feed, carriage return or tab |
| JsonGrammar.SkipWs | src/net/ssehub/kernel_haven/util/io/json/JsonParser.java:157-161 | skipWhitespace drops exactly the longest prefix of whitespace characters: everything dropped is whitespace and what remains starts with something else |
| JsonGrammar.DigitRun | src/net/ssehub/kernel_haven/util/io/json/JsonParser.java:414-416 | the run of decimal digits at the front: all digits, and the next character (if any) is not one |
| JsonGrammarProps.SkipWsEmpty | src/net/ssehub/kernel_haven/util/io/json/JsonParser.java:157-161 | skipping whitespace consumes everything exactly when the text is all whitespace |
| JsonGrammarProps.SkipWsPrefix | src/net/ssehub/kernel_haven/util/io/json/JsonParser.java:157-161 | whitespace in front of text that starts with something else is skipped entirely |
| JsonGrammarProps.TrailingInput | src/net/ssehub/kernel_haven/util/io/json/JsonParser.java:171-181 | parse returns the element exactly when only whitespace follows it, and raises FormatException otherwise |
| JsonGrammarProps.WhitespaceIsExactly | src/net/ssehub/kernel_haven/util/io/json/JsonParser.java:142-147 | a single character before a value is accepted exactly when it is tab, line feed, carriage return or space |
| JsonGrammarProps.ElementSkip | src/net/ssehub/kernel_haven/util/io/json/JsonParser.java:191-192 | readElement skips leading whitespace before dispatching |
| JsonGrammarProps.ElementList | src/net/ssehub/kernel_haven/util/io/json/JsonParser.java:204-208 | '[' raises the nesting depth, failing when it reaches the limit, and otherwise reads a list |
| JsonGrammarProps.ElementObject | src/net/ssehub/kernel_haven/util/io/json/JsonParser.java:198-202 | '{' raises the nesting depth, failing when it reaches the limit, and otherwise reads an object |
| JsonGrammarProps.ElementNumber | src/net/ssehub/kernel_haven/util/io/json/JsonParser.java:223-225 | a digit or '-' starts a number |
| JsonGrammarProps.ElementTrueWord | src/net/ssehub/kernel_haven/util/io/json/JsonParser.java:210-212 | 't' must start the word true, or FormatException |
| JsonGrammarProps.ElementFalseWord | src/net/ssehub/kernel_haven/util/io/json/JsonParser.java:210-212 | 'f' must start the word false, or FormatException |
| JsonGrammarProps.ElementNullWord | src/net/ssehub/kernel_haven/util/io/json/JsonParser.java:215-217 | 'n' must start the word null, or FormatException |
| JsonGrammarProps.ElementTrue | src/net/ssehub/kernel_haven/util/io/json/JsonParser.java:563-567 | the text true followed by anything reads as the boolean true and leaves the rest |
| JsonGrammarProps.ElementEmpty | src/net/ssehub/kernel_haven/util/io/json/JsonParser.java:227-229 | end of input where an element should start is a FormatException |
| JsonGrammarProps.ElementOther | src/net/ssehub/kernel_haven/util/io/json/JsonParser.java:227-229 | a character that starts no JSON value is a FormatException |
| JsonGrammarProps.ElementString | src/net/ssehub/kernel_haven/util/io/json/JsonParser.java:219-221 | a '"' starts a string element |
| JsonGrammarProps.NumberKinds | src/net/ssehub/kernel_haven/util/io/json/JsonParser.java:441-476 | every number read is an Integer, a Long or a Double |
| JsonGrammarProps.ItemsFail | src/net/ssehub/kernel_haven/util/io/json/JsonParser.java:310-312 | a list element that fails makes the list fail with the same exception |
| JsonGrammarProps.MembersFail | src/net/ssehub/kernel_haven/util/io/json/JsonParser.java:254-270 | a member that fails makes the object fail with the same exception |
| JsonGrammarProps.MemberAtOf | src/net/ssehub/kernel_haven/util/io/json/JsonParser.java:254-265 | a string key, whitespace, ':' and an element make one member with that key and value |
| JsonGrammarProps.MemberAtNoColon | src/net/ssehub/kernel_haven/util/io/json/JsonParser.java:258-262 | a key not followed by ':' is a FormatException |
| JsonGrammarProps.MemberAtNoKey | src/net/ssehub/kernel_haven/util/io/json/JsonParser.java:254-278 | a member that does not start with '"' is a FormatException |
| JsonGrammarProps.MemberAtKeyFail | src/net/ssehub/kernel_haven/util/io/json/JsonParser.java:255 | a key string that fails makes the member fail with the same exception |
| JsonGrammarProps.MemberAtValueFail | src/net/ssehub/kernel_haven/util/io/json/JsonParser.java:264 | a value that fails makes the member fail with the same exception |
| JsonGrammarProps.NestingLimitReached | src/net/ssehub/kernel_haven/util/io/json/JsonParser.java:120-126 | n opening brackets whose last one reaches depth 1200 fail, whatever follows |
| JsonGrammarProps.NestedFailStep | src/net/ssehub/kernel_haven/util/io/json/JsonParser.java:204-208 | a '[' whose inner element fails fails |
| JsonGrammarProps.ListFail | src/net/ssehub/kernel_haven/util/io/json/JsonParser.java:297-312 | a list whose first element fails fails |
| JsonGrammarProps.ListEmpty | src/net/ssehub/kernel_haven/util/io/json/JsonParser.java:297-329 | '[' directly followed by ']' is the empty list |
| JsonGrammarProps.ListOfOne | src/net/ssehub/kernel_haven/util/io/json/JsonParser.java:297-329 | one element directly followed by ']' is a list of one |
| JsonGrammarProps.NestingBelowLimit | src/net/ssehub/kernel_haven/util/io/json/JsonParser.java:120-126 | below the limit, n nested brackets read back as n nested lists |
| JsonGrammarProps.NestedOne | src/net/ssehub/kernel_haven/util/io/json/JsonParser.java:204-208 | "[]" is the empty list |
| JsonGrammarProps.NestedStep | src/net/ssehub/kernel_haven/util/io/json/JsonParser.java:204-208 | '[' around the text of n-1 nested lists is n nested lists |
| JsonGrammarProps.NestingLimitExact | src/net/ssehub/kernel_haven/util/io/json/JsonParser.java:43-126 | a document of n nested lists parses exactly when n is below 1200 |
| JsonGrammarProps.UnterminatedRejected | src/net/ssehub/kernel_haven/util/io/json/JsonParser.java:341-402 | a string without its closing quote is rejected |
| JsonGrammarProps.EscapeUnterminated | src/net/ssehub/kernel_haven/util/io/json/JsonParser.java:345-402 | an escape in a string without its closing quote is rejected |
| JsonGrammarProps.RawControlRejected | src/net/ssehub/kernel_haven/util/io/json/JsonParser.java:388-391 | an unescaped character below 0x20 is rejected |
| JsonGrammarProps.UnknownEscapeRejected | src/net/ssehub/kernel_haven/util/io/json/JsonParser.java:383-385 | any escape letter other than " \ / b f n r t u is rejected |
| JsonGrammarProps.SolidusEscape | src/net/ssehub/kernel_haven/util/io/json/JsonParser.java:351-354 | \/ decodes to a solidus |
| JsonGrammarProps.UnicodeEscape | src/net/ssehub/kernel_haven/util/io/json/JsonParser.java:371-381 | \u with four hex digits decodes to the character with that code (surrogate codes: see Left out) |
| JsonGrammarProps.UnicodeEscapeTooShort | src/net/ssehub/kernel_haven/util/io/json/JsonParser.java:373-377 | \u followed by fewer than four hex digits is rejected |
| JsonGrammarProps.EscapeCharDecodes | src/net/ssehub/kernel_haven/util/io/json/JsonParser.java:350-370 | each of jsonEscape's two-character escapes decodes back to the character it stands for |
| JsonGrammarProps.StringRoundTrip | src/net/ssehub/kernel_haven/util/io/json/JsonParser.java:339-405 | reading the escaped text of a string followed by a quote gives the string back |
| JsonGrammarProps.ClosingQuote | src/net/ssehub/kernel_haven/util/io/json/JsonParser.java:341-404 | the closing quote ends the string and is consumed |
| JsonGrammarProps.QuoteRoundTrip | src/net/ssehub/kernel_haven/util/io/json/JsonParser.java:339-405 | the quoted text JsonString.toString writes parses back to the same string, alone or followed by more text |
| JsonGrammarProps.QuoteElement | src/net/ssehub/kernel_haven/util/io/json/JsonParser.java:219-221 | the quoted text of a string read as an element is that string |
| JsonGrammarProps.NumberSound | src/net/ssehub/kernel_haven/util/io/json/JsonParser.java:486-556 | every number the parser accepts is spelled as section 6 of RFC 8259 requires |
| JsonGrammarProps.DigitsAfterSound | src/net/ssehub/kernel_haven/util/io/json/JsonParser.java:515-527 | the fraction and exponent digit loop reads the whole run of digits, and at least one |
| JsonGrammarProps.IntDigitsSound | src/net/ssehub/kernel_haven/util/io/json/JsonParser.java:486-501 | what readIntDigits accepts is an optional '-' and digits without a redundant leading zero |
| JsonGrammarProps.FracDigitsSound | src/net/ssehub/kernel_haven/util/io/json/JsonParser.java:511-528 | what readFracDigits accepts is nothing, or '.' and at least one digit |
| JsonGrammarProps.ExpDigitsSound | src/net/ssehub/kernel_haven/util/io/json/JsonParser.java:535-556 | what readExpDigits accepts is nothing, or 'e'/'E', an optional sign and at least one digit |
| JsonGrammarProps.ExpSignedSound | src/net/ssehub/kernel_haven/util/io/json/JsonParser.java:539-550 | the exponent keeps its sign with its digits |
| JsonGrammarProps.IntDigitsOf | src/net/ssehub/kernel_haven/util/io/json/JsonParser.java:486-501 | every well-formed integer part is read in full |
| JsonGrammarProps.IntMagnitudeOf | src/net/ssehub/kernel_haven/util/io/json/JsonParser.java:490-501 | every magnitude without a redundant leading zero is read in full |
| JsonGrammarProps.FracDigitsOf | src/net/ssehub/kernel_haven/util/io/json/JsonParser.java:511-528 | every well-formed fraction part is read in full |
| JsonGrammarProps.ExpDigitsOf | src/net/ssehub/kernel_haven/util/io/json/JsonParser.java:535-556 | every well-formed exponent part is read in full |
| JsonGrammarProps.ExpSignedOf | src/net/ssehub/kernel_haven/util/io/json/JsonParser.java:539-550 | every signed digit run after 'e' is read in full |
| JsonGrammarProps.NumberComplete | src/net/ssehub/kernel_haven/util/io/json/JsonParser.java:441-476 | every spelling of section 6 of RFC 8259 is read in full up to a character that cannot continue it, and succeeds exactly when it has a fraction or exponent or its digits fit a long |
| JsonGrammarProps.NumberSteps | src/net/ssehub/kernel_haven/util/io/json/JsonParser.java:441-451 | readNumber is the integer digits, then the fraction, then the exponent, then the value conversion |
| JsonGrammarProps.LeadingZeroRejected | src/net/ssehub/kernel_haven/util/io/json/JsonParser.java:495-497 | a redundant leading zero is rejected, with or without '-' |
| JsonGrammarProps.FractionNeedsDigit | src/net/ssehub/kernel_haven/util/io/json/JsonParser.java:512-526 | '.' not followed by a digit is rejected |
| JsonGrammarProps.ExponentNeedsDigit | src/net/ssehub/kernel_haven/util/io/json/JsonParser.java:536-553 | 'e' or 'E', with or without a sign, not followed by a digit is rejected |
| JsonGrammarProps.NumberIntOrLong | src/net/ssehub/kernel_haven/util/io/json/JsonParser.java:454-473 | an integer without fraction or exponent becomes an Integer inside the int range, a Long outside it, and a FormatException beyond the long range |
| JsonGrammarProps.KeyMustBeString | src/net/ssehub/kernel_haven/util/io/json/JsonParser.java:254-278 | a member must start with a string key, so a ',' right before '}' (a trailing comma) is rejected |
| JsonGrammarProps.KeyRead | src/net/ssehub/kernel_haven/util/io/json/JsonParser.java:255 | the key of a member is read back from its quoted form |
| JsonGrammarProps.ColonRequired | src/net/ssehub/kernel_haven/util/io/json/JsonParser.java:258-262 | a key followed by anything but ':' is rejected |
| JsonGrammarProps.ListTrailingCommaRejected | src/net/ssehub/kernel_haven/util/io/json/JsonParser.java:307-318 | a ',' right before ']' is rejected |
| JsonGrammarProps.MemberStep | src/net/ssehub/kernel_haven/util/io/json/JsonParser.java:250-270 | one member is stored with put and reading continues after it with the accumulated object |
| JsonGrammarProps.DuplicateKeyLaterWins | src/net/ssehub/kernel_haven/util/io/json/JsonParser.java:265 | of two members with the same key the later value wins and the entry stays where the first one put it |
| JsonParsing.WsCode | src/net/ssehub/kernel_haven/util/io/json/JsonParser.java:142-147 | the next code is a whitespace code exactly when the rest of the input starts with JSON whitespace |
| JsonParsing.JsonParser.constructor | src/net/ssehub/kernel_haven/util/io/json/JsonParser.java:56-59 | a fresh parser over the input: nothing buffered, nesting depth 0 |
| JsonParsing.JsonParser.Peek | src/net/ssehub/kernel_haven/util/io/json/JsonParser.java:88-95 | peek returns the next character (or -1 at the end) without consuming it, and buffers it |
| JsonParsing.JsonParser.Read | src/net/ssehub/kernel_haven/util/io/json/JsonParser.java:103-113 | read returns the buffered character or the next one, consumes exactly one character and empties the buffer |
| JsonParsing.JsonParser.SkipWhitespace | src/net/ssehub/kernel_haven/util/io/json/JsonParser.java:157-161 | afterwards the rest of the input is the input with its whitespace prefix dropped |
| JsonParsing.JsonParser.ReadAndAssert | src/net/ssehub/kernel_haven/util/io/json/JsonParser.java:598-605 | succeeds exactly when the input starts with the expected word, and then consumes it |
| JsonParsing.JsonParser.ReadString | src/net/ssehub/kernel_haven/util/io/json/JsonParser.java:339-405 | the decoded string, the rest of the input and the exception agree with the string grammar |
| JsonParsing.JsonParser.ReadEscape | src/net/ssehub/kernel_haven/util/io/json/JsonParser.java:345-385 | the character an escape stands for, or FormatException for an unknown escape or bad hex digits, as the string grammar says |
| JsonParsing.JsonParser.ReadHex4 | src/net/ssehub/kernel_haven/util/io/json/JsonParser.java:371-381 | the four characters after \u are read one by one and must all be hex digits |
| JsonParsing.JsonParser.ReadDigitRun | src/net/ssehub/kernel_haven/util/io/json/JsonParser.java:491-493 | the loop consumes exactly the run of digits at the front |
| JsonParsing.JsonParser.ReadIntDigits | src/net/ssehub/kernel_haven/util/io/json/JsonParser.java:486-501 | agrees with the grammar's integer part: optional '-', digits, no redundant leading zero, at least one digit |
| JsonParsing.JsonParser.ReadFracDigits | src/net/ssehub/kernel_haven/util/io/json/JsonParser.java:511-528 | agrees with the grammar's fraction part: nothing, or '.' and at least one digit |
| JsonParsing.JsonParser.ReadRequiredDigits | src/net/ssehub/kernel_haven/util/io/json/JsonParser.java:515-527 | the digit loop with its foundOne check agrees with the grammar: at least one digit |
| JsonParsing.JsonParser.ReadExpDigits | src/net/ssehub/kernel_haven/util/io/json/JsonParser.java:535-556 | agrees with the grammar's exponent part: nothing, or 'e'/'E', an optional sign kept with the digits, and at least one digit |
| JsonParsing.JsonParser.ReadNumber | src/net/ssehub/kernel_haven/util/io/json/JsonParser.java:441-476 | the number read, the rest and the exception agree with the number grammar |
| JsonParsing.JsonParser.ReadBoolean | src/net/ssehub/kernel_haven/util/io/json/JsonParser.java:563-575 | true after a 't', false otherwise, each only when the whole word follows |
| JsonParsing.JsonParser.ReadNull | src/net/ssehub/kernel_haven/util/io/json/JsonParser.java:585-588 | the word null, or FormatException |
| JsonParsing.JsonParser.ReadElement | src/net/ssehub/kernel_haven/util/io/json/JsonParser.java:191-232 | agrees with the element grammar at the current depth, consumes input on success and leaves the depth as it was |
| JsonParsing.JsonParser.ReadValue | src/net/ssehub/kernel_haven/util/io/json/JsonParser.java:196-229 | the dispatch on the next character agrees with the grammar |
| JsonParsing.JsonParser.ReadNestedObject | src/net/ssehub/kernel_haven/util/io/json/JsonParser.java:198-202 | the '{' case raises the depth (failing at the limit), reads an object and lowers it again |
| JsonParsing.JsonParser.ReadNestedList | src/net/ssehub/kernel_haven/util/io/json/JsonParser.java:204-208 | the '[' case raises the depth (failing at the limit), reads a list and lowers it again |
| JsonParsing.JsonParser.ReadClosing | src/net/ssehub/kernel_haven/util/io/json/JsonParser.java:280-286 | after whitespace the closing character must follow, and is consumed |
| JsonParsing.JsonParser.ReadSeparator | src/net/ssehub/kernel_haven/util/io/json/JsonParser.java:267-271 | after whitespace a ',' is consumed exactly when present, and announces another entry |
| JsonParsing.JsonParser.ReadList | src/net/ssehub/kernel_haven/util/io/json/JsonParser.java:297-332 | the list read, the rest and the exception agree with the list grammar |
| JsonParsing.JsonParser.ReadMember | src/net/ssehub/kernel_haven/util/io/json/JsonParser.java:254-265 | one member (key, ':' and value) agrees with the member grammar |
| JsonParsing.JsonParser.ReadObject | src/net/ssehub/kernel_haven/util/io/json/JsonParser.java:242-289 | the object read, the rest and the exception agree with the object grammar, so a repeated key keeps its last value |
| JsonParsing.JsonParser.Parse | src/net/ssehub/kernel_haven/util/io/json/JsonParser.java:171-181 | parse returns exactly what the JSON grammar gives for the whole input: one element and then only whitespace |
| JsonObjects.Keys | src/net/ssehub/kernel_haven/util/io/json/JsonObject.java:234-236 | a key is in the key set exactly when some entry carries it |
| JsonObjects.SizeCountsKeys | src/net/ssehub/kernel_haven/util/io/json/JsonObject.java:234-236 | with distinct keys the entry count equals the number of keys, so the map size is the key count |
| JsonObjects.PutKeys | src/net/ssehub/kernel_haven/util/io/json/JsonObject.java:51-53 | putElement adds exactly its key to the key set |
| JsonObjects.RemoveKeys | src/net/ssehub/kernel_haven/util/io/json/JsonObject.java:225-227 | removeElement takes exactly its key out of the key set |
| JsonObjects.StringIn | src/net/ssehub/kernel_haven/util/io/json/JsonObject.java:80-93 | getValue for strings: succeeds exactly when the key holds a JsonString and returns its text; a missing key or another type raises FormatException |
| JsonObjects.IntIn | src/net/ssehub/kernel_haven/util/io/json/JsonObject.java:129-137 | getInt on entries: succeeds exactly when the key holds an Integer number; otherwise FormatException |
| JsonObjects.ListIn | src/net/ssehub/kernel_haven/util/io/json/JsonObject.java:183-196 | getList on entries: succeeds exactly when the key holds a JsonList; otherwise FormatException |
| JsonObjects.JsonObject.constructor | src/net/ssehub/kernel_haven/util/io/json/JsonObject.java:41-43 | a new object has no entries |
| JsonObjects.JsonObject.PutElement | src/net/ssehub/kernel_haven/util/io/json/JsonObject.java:51-53 | the entries become those of put on the old entries (overwrite in place or append), keys stay distinct |
| JsonObjects.JsonObject.RemoveElement | src/net/ssehub/kernel_haven/util/io/json/JsonObject.java:225-227 | the entries become those of remove on the old entries, keys stay distinct |
| JsonObjects.JsonObject.GetSize | src/net/ssehub/kernel_haven/util/io/json/JsonObject.java:234-236 | the size is the number of distinct keys |
| JsonObjects.JsonObject.GetElement | src/net/ssehub/kernel_haven/util/io/json/JsonObject.java:62-64 | an element is returned exactly when the key is present, and it is the element stored with that key |
| JsonObjects.JsonObject.GetString | src/net/ssehub/kernel_haven/util/io/json/JsonObject.java:103-105 | succeeds exactly when the key holds a JsonString, returning its value; otherwise FormatException |
| JsonObjects.JsonObject.GetBoolean | src/net/ssehub/kernel_haven/util/io/json/JsonObject.java:116-118 | succeeds exactly when the key holds a JsonBoolean, returning its value; otherwise FormatException |
| JsonObjects.JsonObject.GetInt | src/net/ssehub/kernel_haven/util/io/json/JsonObject.java:129-137 | succeeds exactly when the key holds a number that is an Integer; a Long, a Double or a missing key raise FormatException |
| JsonObjects.JsonObject.GetLong | src/net/ssehub/kernel_haven/util/io/json/JsonObject.java:147-155 | succeeds exactly when the key holds an Integer or a Long, returning it widened; otherwise FormatException |
| JsonObjects.JsonObject.GetDouble | src/net/ssehub/kernel_haven/util/io/json/JsonObject.java:165-173 | succeeds exactly when the key holds a Double; an integral number raises FormatException |
| JsonObjects.JsonObject.GetList | src/net/ssehub/kernel_haven/util/io/json/JsonObject.java:183-196 | succeeds exactly when the key holds a JsonList; a missing key or another type raise FormatException |
| JsonObjects.JsonObject.GetObject | src/net/ssehub/kernel_haven/util/io/json/JsonObject.java:206-219 | succeeds exactly when the key holds a JsonObject; a missing key or another type raise FormatException |
| JsonObjects.JsonObject.ToText | src/net/ssehub/kernel_haven/util/io/json/JsonObject.java:244-267 | the text the loop builds is the printed form of the object value |
| JsonObjects.PutElementSize | src/net/ssehub/kernel_haven/util/io/json/JsonObject.java:51-53 | putting under a present key keeps the size; a new key adds one entry, placed last |
| JsonObjects.EqualsIgnoresOrder | src/net/ssehub/kernel_haven/util/io/json/JsonObject.java:275-282 | two objects holding the same entries in any order are equal, as HashMap equality promises |
| JsonLists.JsonList.constructor | src/net/ssehub/kernel_haven/util/io/json/JsonList.java:39-41 | a new list is empty |
| JsonLists.JsonList.AddElement | src/net/ssehub/kernel_haven/util/io/json/JsonList.java:48-50 | the element is appended at the end, the rest unchanged |
| JsonLists.JsonList.SetElement | src/net/ssehub/kernel_haven/util/io/json/JsonList.java:60-62 | succeeds exactly for an index in range, replacing that element only; otherwise nothing changes and IndexOutOfBoundsException is raised |
| JsonLists.JsonList.RemoveElement | src/net/ssehub/kernel_haven/util/io/json/JsonList.java:71-73 | succeeds exactly for an index in range; the element goes and the later ones move one place left; otherwise nothing changes and IndexOutOfBoundsException is raised |
| JsonLists.JsonList.GetElement | src/net/ssehub/kernel_haven/util/io/json/JsonList.java:84-86 | the element at an index in range, or IndexOutOfBoundsException exactly when out of range |
| JsonLists.JsonList.GetSize | src/net/ssehub/kernel_haven/util/io/json/JsonList.java:93-95 | the number of elements |
| JsonLists.JsonList.ToText | src/net/ssehub/kernel_haven/util/io/json/JsonList.java:103-123 | the text the loop builds is the printed form of the list value |
| JsonLists.EqualsOrderSensitive | src/net/ssehub/kernel_haven/util/io/json/JsonList.java:131-138 | list equality is ArrayList equality: swapping two different elements gives an unequal list |
| JsonPretty.Visit | src/net/ssehub/kernel_haven/util/io/json/JsonPrettyPrinter.java:31-114 | the visitor's result for any element is the pretty-printed form defined on values |
| JsonPretty.VisitString | src/net/ssehub/kernel_haven/util/io/json/JsonPrettyPrinter.java:107-109 | a string prints as its escaped value between quotes |
| JsonPretty.VisitList | src/net/ssehub/kernel_haven/util/io/json/JsonPrettyPrinter.java:68-94 | the list text the loop builds is the pretty-printed list |
| JsonPretty.VisitObject | src/net/ssehub/kernel_haven/util/io/json/JsonPrettyPrinter.java:32-65 | the object text the loop builds is the pretty-printed object |
| JsonPretty.VisitListEntry | src/net/ssehub/kernel_haven/util/io/json/JsonPrettyPrinter.java:76-86 | one element of the list: its lines indented, the last line break replaced by ",\n" |
| JsonPretty.VisitMember | src/net/ssehub/kernel_haven/util/io/json/JsonPrettyPrinter.java:40-57 | one member of the object: tab, quoted key, ": ", the value's lines, then ",\n" |
| JsonPretty.AppendMemberValue | src/net/ssehub/kernel_haven/util/io/json/JsonPrettyPrinter.java:43-54 | the value's lines with every line but the first indented |
| JsonPretty.AppendTabbed | src/net/ssehub/kernel_haven/util/io/json/JsonPrettyPrinter.java:80-83 | each line with a tab before and a break after; dropping the last break leaves the tabbed lines joined |
| JsonPretty.AppendTabbedAfterFirst | src/net/ssehub/kernel_haven/util/io/json/JsonPrettyPrinter.java:45-54 | each line with a break after and a tab before all but the first; dropping the last break leaves them joined |
| JsonPretty.PrettyShape | src/net/ssehub/kernel_haven/util/io/json/JsonPrettyPrinter.java:31-114 | the printed form is never empty and never ends with a line break, so deleting the trailing break is safe |
| JsonPretty.LinesOfShaped | src/net/ssehub/kernel_haven/util/io/json/JsonPrettyPrinter.java:43 | splitting such a text gives at least one line and a non-empty last line |
| JsonPretty.ScalarOneLine | src/net/ssehub/kernel_haven/util/io/json/JsonPrettyPrinter.java:96-114 | a scalar prints on a single line |
| JsonPretty.ListOfScalarsLines | src/net/ssehub/kernel_haven/util/io/json/JsonPrettyPrinter.java:68-94 | a non-empty list of scalars prints as "[", one tab-indented line per element with ',' after all but the last, then "]" |
| JsonPretty.ObjectOfScalarsLines | src/net/ssehub/kernel_haven/util/io/json/JsonPrettyPrinter.java:32-65 | a non-empty object of scalars prints as "{", one line per member (tab, quoted key, ": ", value) with ',' after all but the last, then "}" |
| JsonPretty.WrappedLines | src/net/ssehub/kernel_haven/util/io/json/JsonPrettyPrinter.java:75-89 | bracket, break, parts joined by ",\n", break, bracket splits into the open line, the parts marked with ',', and the close line |
| JsonPretty.JoinMarked | src/net/ssehub/kernel_haven/util/io/json/JsonPrettyPrinter.java:85-88 | joining with ",\n" equals marking all parts but the last with ',' and joining with "\n" |
| JsonPretty.EntryIndentsLines | src/net/ssehub/kernel_haven/util/io/json/JsonPrettyPrinter.java:78-83 | nesting indents by one tab: an element entry's lines are its printed lines with a tab in front |
| CsvReading.PeekOf | src/net/ssehub/kernel_haven/util/io/csv/CsvReader.java:125-131 | peek yields -1 exactly at the end of the stream |
| CsvReading.StepOn | src/net/ssehub/kernel_haven/util/io/csv/CsvReader.java:199-258 | a row ends only at an unquoted line feed or carriage return that is not the separator, and a '\r' followed by '\n' consumes the '\n' |
| CsvReading.Scan | src/net/ssehub/kernel_haven/util/io/csv/CsvReader.java:199-258 | the scanning loop consumes at least one character of a non-empty stream, and reaching the end leaves nothing peeked |
| CsvReading.Unescape | src/net/ssehub/kernel_haven/util/io/csv/CsvReader.java:140-163 | a field not starting with '"' is returned unchanged, and unescaping never lengthens a field |
| CsvReading.UnquoteBodyAt | src/net/ssehub/kernel_haven/util/io/csv/CsvReader.java:146-159 | each pass of unescape's loop: a final '"' stops, a doubled '"' yields one '"' and skips two, any other character is copied |
| CsvReading.ReadLineSpec | src/net/ssehub/kernel_haven/util/io/csv/CsvReader.java:174-279 | readLine consumes input, and a row is returned only after consuming at least one character |
| CsvReading.CsvReader.constructor | src/net/ssehub/kernel_haven/util/io/csv/CsvReader.java:83-87 | a new reader has the whole input ahead, nothing peeked and the end flag down |
| CsvReading.CsvReader.Read | src/net/ssehub/kernel_haven/util/io/csv/CsvReader.java:102-114 | read returns the next character (the peeked one first) and consumes it, or -1 at the end, which raises the end flag |
| CsvReading.CsvReader.Peek | src/net/ssehub/kernel_haven/util/io/csv/CsvReader.java:125-131 | peek returns the next character without consuming it; a second peek before a read raises IllegalStateException |
| CsvReading.CsvReader.UnescapeField | src/net/ssehub/kernel_haven/util/io/csv/CsvReader.java:140-163 | the loop computes unescape of the field |
| CsvReading.CsvReader.ScanRow | src/net/ssehub/kernel_haven/util/io/csv/CsvReader.java:199-258 | the reader loop ends in the state the scanning function describes for the same stream |
| CsvReading.CsvReader.ScanChar | src/net/ssehub/kernel_haven/util/io/csv/CsvReader.java:205-257 | one pass of the loop moves the reader exactly as one step of the scanning function does |
| CsvReading.CsvReader.UnescapeRow | src/net/ssehub/kernel_haven/util/io/csv/CsvReader.java:271-276 | every field of the row is unescaped in place |
| CsvReading.CsvReader.ReadLine | src/net/ssehub/kernel_haven/util/io/csv/CsvReader.java:174-279 | the row, the remaining stream and the end flag are those readLine's specification gives for the stream |
| CsvReading.CsvReader.ReadNextRow | src/net/ssehub/kernel_haven/util/io/csv/CsvReader.java:282-290 | after the end, null and nothing consumed; otherwise exactly readLine |
| CsvWriting.DoubleQuotes | src/net/ssehub/kernel_haven/util/io/csv/CsvWriter.java:75-80 | doubling quotes never shortens the text |
| CsvWriting.InsertQuotesStep | src/net/ssehub/kernel_haven/util/io/csv/CsvWriter.java:75-80 | one pass of escape's inner loop: a quote at the cursor is doubled and the cursor passes it, so the processed prefix is quote-doubled |
| CsvWriting.EscapeChanges | src/net/ssehub/kernel_haven/util/io/csv/CsvWriter.java:63-85 | escape never shortens a field and changes it exactly when it holds the separator or a line feed |
| CsvWriting.DoubleQuotesKeeps | src/net/ssehub/kernel_haven/util/io/csv/CsvWriter.java:75-80 | doubling quotes keeps exactly the same other characters |
| CsvWriting.InsertByIndexSorted | src/net/ssehub/kernel_haven/util/io/csv/CsvWriter.java:116-125 | putting a field into the index-keyed map keeps the map ordered by index with one field per index |
| CsvWriting.ByIndexProps | src/net/ssehub/kernel_haven/util/io/csv/CsvWriter.java:116-135 | the header fields are ordered by index, one per index, each the field declared last with that index |
| CsvWriting.FieldValues | src/net/ssehub/kernel_haven/util/io/csv/CsvWriter.java:146-161 | each header field's value in header order; a missing (null) value raises NullPointerException exactly when some field has none |
| CsvWriting.CsvWriter.constructor | src/net/ssehub/kernel_haven/util/io/csv/CsvWriter.java:46-49 | a new writer has written nothing and knows no row class or fields |
| CsvWriting.CsvWriter.EscapeField | src/net/ssehub/kernel_haven/util/io/csv/CsvWriter.java:63-85 | the loops compute escape of the field |
| CsvWriting.CsvWriter.MustBeEscaped | src/net/ssehub/kernel_haven/util/io/csv/CsvWriter.java:64-70 | the first loop finds whether the field holds the separator or a line feed |
| CsvWriting.CsvWriter.WriteLine | src/net/ssehub/kernel_haven/util/io/csv/CsvWriter.java:95-105 | the output grows by the escaped fields joined by the separator and a line feed; with no fields the deletion fails and nothing is written |
| CsvWriting.CsvWriter.WriteHeader | src/net/ssehub/kernel_haven/util/io/csv/CsvWriter.java:115-137 | the writer's fields become the index-ordered annotated fields and their names are written as one line |
| CsvWriting.CsvWriter.WriteRow | src/net/ssehub/kernel_haven/util/io/csv/CsvWriter.java:164-185 | the first row fixes the class, a row of another class raises IllegalArgumentException and writes nothing, otherwise the output is that of the row specification |
| CsvWriting.CsvWriter.WriteTableRow | src/net/ssehub/kernel_haven/util/io/csv/CsvWriter.java:176-180 | the header once when the fields are unknown, then the row's values |
| CsvWriting.CsvWriter.WriteFirstTableRow | src/net/ssehub/kernel_haven/util/io/csv/CsvWriter.java:177-180 | the first annotated row writes the header and then its values unless the header failed |
| CsvWriting.CsvWriter.WriteAnnotatedRow | src/net/ssehub/kernel_haven/util/io/csv/CsvWriter.java:146-161 | the row's field values in header order written as one line, or NullPointerException with nothing written |
| CsvWriting.PlainRowIsOneField | src/net/ssehub/kernel_haven/util/io/csv/CsvWriter.java:182-184 | a row class without the table annotation is written as its escaped toString and a line feed |
| CsvWriting.HeaderOnlyOnce | src/net/ssehub/kernel_haven/util/io/csv/CsvWriter.java:176-180 | the first annotated row writes the header and its values; a later row of the class writes only its values |
| CsvRoundTrip.DoubleQuotesConcat | src/net/ssehub/kernel_haven/util/io/csv/CsvWriter.java:75-80 | quote doubling distributes over concatenation |
| CsvRoundTrip.UnquoteDoubled | src/net/ssehub/kernel_haven/util/io/csv/CsvReader.java:146-159 | the reader's unquoting undoes the writer's quote doubling |
| CsvRoundTrip.UnescapeEscape | src/net/ssehub/kernel_haven/util/io/csv/CsvReader.java:140-163 | unescape inverts escape on every field that escape quotes, and on every other field that does not start with '"' |
| CsvRoundTrip.UnescapeAllEscaped | src/net/ssehub/kernel_haven/util/io/csv/CsvReader.java:274-276 | unescaping every escaped field of a row gives the row back |
| CsvRoundTrip.QuotedLookingFieldChanges | src/net/ssehub/kernel_haven/util/io/csv/CsvReader.java:143-160 | a field that itself starts and ends with '"' loses those quotes on reading, so escape and unescape do not round-trip it |
| CsvRoundTrip.QuotePair | src/net/ssehub/kernel_haven/util/io/csv/CsvReader.java:228-243 | a doubled quote inside a quoted field is kept as two characters by the scanner |
| CsvRoundTrip.QuotedBodyScan | src/net/ssehub/kernel_haven/util/io/csv/CsvReader.java:223-243 | the scanner reads the body of a quoted field up to and including its closing quote |
| CsvRoundTrip.FieldScan | src/net/ssehub/kernel_haven/util/io/csv/CsvReader.java:199-258 | one escaped field scans to exactly its escaped text |
| CsvRoundTrip.LineScan | src/net/ssehub/kernel_haven/util/io/csv/CsvReader.java:216-222 | the escaped fields joined by the separator scan to the escaped fields |
| CsvRoundTrip.BreakScan | src/net/ssehub/kernel_haven/util/io/csv/CsvReader.java:245-256 | "\n", "\r\n" and a lone "\r" end a row, the lone "\r" leaving the next character peeked |
| CsvRoundTrip.ReadWrittenRow | src/net/ssehub/kernel_haven/util/io/csv/CsvReader.java:174-279 | a line the writer produced, ended by any of the three line breaks, reads back as the row written |
| CsvRoundTrip.EmptyLine | src/net/ssehub/kernel_haven/util/io/csv/CsvReader.java:261-277 | an empty line is the row [""] unless the stream ends right after it, in which case it is null and the end |
| CsvRoundTrip.EmptyStream | src/net/ssehub/kernel_haven/util/io/csv/CsvReader.java:261-267 | an empty stream has no rows |
| CsvRoundTrip.Document | src/net/ssehub/kernel_haven/util/io/csv/CsvWriter.java:95-105 | the text written for a non-empty sequence of rows is non-empty |
| CsvRoundTrip.ReadAllDocument | src/net/ssehub/kernel_haven/util/io/csv/CsvReader.java:282-290 | reading back everything the writer wrote gives the rows, when the fields fit and the last row is not the single empty field |
| CsvRoundTrip.ReadFirstRow | src/net/ssehub/kernel_haven/util/io/csv/CsvReader.java:174-279 | the first line of a written document reads as its first row and leaves the rest of the document |
| CsvRoundTrip.ReadAllStep | src/net/ssehub/kernel_haven/util/io/csv/CsvReader.java:282-290 | a row read in front of the rest of the stream is the first of all rows |
| CsvRoundTrip.LoneReturnEmptyLineFails | src/net/ssehub/kernel_haven/util/io/csv/CsvReader.java:247-261 | as written: an empty line ended by a lone '\r' peeks a second time and raises IllegalStateException |
| CsvRoundTrip.LoneReturnDocumentFails | src/net/ssehub/kernel_haven/util/io/csv/CsvReader.java:247-261 | as written: "x\r\ry" fails at the empty line while "x\n\ny" reads as three rows |
| CsvRoundTrip.ReadLineFixed | src/net/ssehub/kernel_haven/util/io/csv/CsvReader.java:174-279 | the corrected readLine never fails and consumes input |
| CsvRoundTrip.ReadLineFixedAgrees | src/net/ssehub/kernel_haven/util/io/csv/CsvReader.java:174-279 | the correction agrees with readLine wherever readLine succeeds |
| CsvRoundTrip.LoneReturnFixed | src/net/ssehub/kernel_haven/util/io/csv/CsvReader.java:247-261 | corrected: a lone '\r' ends an empty line exactly as '\n' does |
| CsvRoundTrip.LoneReturnDocumentFixed | src/net/ssehub/kernel_haven/util/io/csv/CsvReader.java:247-261 | corrected: "x\r\ry" reads as three rows |
| CsvWriting.CsvWriter.InsertQuotes | src/net/ssehub/kernel_haven/util/io/csv/CsvWriter.java:75-80 | the insertion loop puts a second '"' in front of every '"' of the field and changes nothing else |
| CsvWriting.CsvWriter.QuoteAt | src/net/ssehub/kernel_haven/util/io/csv/CsvWriter.java:76-79 | one pass: a quote at the cursor gets a second quote inserted and the cursor skips both, any other character is passed over |
| Formulas.Precedence | src/net/ssehub/kernel_haven/util/logic/Negation.java:97-100 | precedences lie in 1..3 and only the atoms have the highest |
| Formulas.ParensRule | src/net/ssehub/kernel_haven/util/logic/Disjunction.java:65-83 | inside a disjunction only a conjunction operand is bracketed, inside a negation only a binary operand |
| Formulas.AppendTo | src/net/ssehub/kernel_haven/util/logic/Formula.java:48-56 | toString(StringBuilder) appends exactly the text toString() returns |
| Formulas.AppendNegation | src/net/ssehub/kernel_haven/util/logic/Negation.java:62-71 | '!' then the operand, bracketed exactly when the rule asks for it |
| Formulas.AppendBinary | src/net/ssehub/kernel_haven/util/logic/Disjunction.java:65-83 | left operand, operator, right operand, each bracketed by the rule |
| Formulas.AppendOperand | src/net/ssehub/kernel_haven/util/logic/Disjunction.java:66-72 | one operand, with brackets exactly when the rule asks for them |
| Formulas.Equals | src/net/ssehub/kernel_haven/util/logic/Disjunction.java:86-92 | equals holds exactly for structurally equal formulas |
| Formulas.Hash | src/net/ssehub/kernel_haven/util/logic/Disjunction.java:95-97 | hashCode stays in 32-bit int range, wrapping as Java int arithmetic does |
| Formulas.DisjunctionHashSymmetric | src/net/ssehub/kernel_haven/util/logic/Disjunction.java:86-97 | swapping a disjunction's different operands changes equals but not hashCode |
| Formulas.LiteralSize | src/net/ssehub/kernel_haven/util/logic/Disjunction.java:100-102 | getLiteralSize is the number of variable occurrences |
| BooleanGrammar.GetOperatorAsWritten | src/net/ssehub/kernel_haven/util/logic/parser/CStyleBooleanGrammar.java:50-66 | as written: getOperator throws exactly when a '&' or '\|' is the last character |
| BooleanGrammar.TrailingAmpersandThrows | src/net/ssehub/kernel_haven/util/logic/parser/CStyleBooleanGrammar.java:57-59 | as written: a trailing '&' throws ArrayIndexOutOfBoundsException where no operator was evidently intended |
| BooleanGrammar.GetOperator | src/net/ssehub/kernel_haven/util/logic/parser/CStyleBooleanGrammar.java:50-66 | corrected: the operator found is NOT exactly at '!', AND or OR exactly at a doubled '&' or '\|', and its symbol is the text at the position |
| BooleanGrammar.ClassesDisjoint | src/net/ssehub/kernel_haven/util/logic/parser/CStyleBooleanGrammar.java:69-93 | the character classes are disjoint and no operator character is in any of them |
| BooleanGrammar.MakeUnaryFormula | src/net/ssehub/kernel_haven/util/logic/parser/CStyleBooleanGrammar.java:96-102 | NOT builds a negation; any other operator raises ExpressionFormatException |
| BooleanGrammar.MakeBinaryFormula | src/net/ssehub/kernel_haven/util/logic/parser/CStyleBooleanGrammar.java:105-117 | AND builds a conjunction, OR a disjunction; any other operator raises ExpressionFormatException |
| BooleanGrammar.MakeIdentifierFormula | src/net/ssehub/kernel_haven/util/logic/parser/CStyleBooleanGrammar.java:120-135 | "1" is true, "0" is false, anything else a variable, and printing the result gives the identifier back |
| FormulaLexing.IdentRun | src/net/ssehub/kernel_haven/util/logic/parser/Parser.java:81-87 | the identifier run at the front is maximal |
| FormulaLexing.LexStep | src/net/ssehub/kernel_haven/util/logic/parser/Parser.java:58-92 | each step consumes at least one character; an unknown character raises ExpressionFormatException |
| FormulaLexing.Lexed | src/net/ssehub/kernel_haven/util/logic/parser/Parser.java:50-96 | lexing fails only with ExpressionFormatException |
| FormulaLexing.ContinueSingle | src/net/ssehub/kernel_haven/util/logic/parser/Parser.java:61-79 | a non-identifier character adds its token, if any, and closes the open identifier |
| FormulaLexing.ContinueToken | src/net/ssehub/kernel_haven/util/logic/parser/Parser.java:61-79 | a whitespace, bracket or operator character closes the open identifier and adds its token |
| FormulaLexing.LexedIdentifier | src/net/ssehub/kernel_haven/util/logic/parser/Parser.java:81-87 | a maximal run of identifier characters becomes one identifier token |
| FormulaLexing.AsWrittenLexAgrees | src/net/ssehub/kernel_haven/util/logic/parser/Parser.java:58-59 | the as-written lexer agrees with the corrected one, except that it throws ArrayIndexOutOfBoundsException where the corrected one raises ExpressionFormatException |
| FormulaLexing.TrailingAmpersandLexed | src/net/ssehub/kernel_haven/util/logic/parser/Parser.java:58-59 | as written: lexing "A &" throws ArrayIndexOutOfBoundsException; corrected, it raises ExpressionFormatException |
| FormulaLexing.UnknownCharacterRejected | src/net/ssehub/kernel_haven/util/logic/parser/Parser.java:89-91 | any character outside the grammar's classes makes lexing raise ExpressionFormatException |
| FormulaLexing.ContinueOpen | src/net/ssehub/kernel_haven/util/logic/parser/Parser.java:82-85 | an identifier character with no open identifier opens a new one |
| FormulaLexing.ContinueExtend | src/net/ssehub/kernel_haven/util/logic/parser/Parser.java:86-87 | an identifier character extends the open identifier |
| FormulaLexing.LexSymbol | src/net/ssehub/kernel_haven/util/logic/parser/Parser.java:61-79 | one pass at a whitespace, bracket or operator: the position advances and the remaining tokens are unchanged in meaning |
| FormulaLexing.LexIdentifierChar | src/net/ssehub/kernel_haven/util/logic/parser/Parser.java:81-87 | one pass at an identifier character leaves an open identifier last |
| FormulaLexing.Lex | src/net/ssehub/kernel_haven/util/logic/parser/Parser.java:50-96 | the lexer loop computes the token sequence of the expression, or its ExpressionFormatException |
| FormulaParsing.ScanFrom | src/net/ssehub/kernel_haven/util/logic/parser/Parser.java:147-179 | the bracket scan fails only with ExpressionFormatException and otherwise ends at a non-negative depth with a well-formed root |
| FormulaParsing.Root | src/net/ssehub/kernel_haven/util/logic/parser/Parser.java:124-190 | every split the parser makes recurses on strictly shorter ranges, and every error is an ExpressionFormatException |
| FormulaParsing.SplitAt | src/net/ssehub/kernel_haven/util/logic/parser/Parser.java:204-242 | createResult's split recurses on strictly shorter ranges and fails only with ExpressionFormatException |
| FormulaParsing.ParseTokens | src/net/ssehub/kernel_haven/util/logic/parser/Parser.java:124-190 | parsing a token range fails only with ExpressionFormatException |
| FormulaParsing.Parse | src/net/ssehub/kernel_haven/util/logic/parser/Parser.java:36-40 | parse(expression) fails only with ExpressionFormatException |
| FormulaParsing.FindHighest | src/net/ssehub/kernel_haven/util/logic/parser/Parser.java:143-183 | the scan loop over min..max finds what the scan function finds on that slice, at absolute positions |
| FormulaParsing.ParseRange | src/net/ssehub/kernel_haven/util/logic/parser/Parser.java:124-190 | parse(tokens, min, max) returns the formula the token slice denotes, or its error |
| FormulaParsing.CreateResult | src/net/ssehub/kernel_haven/util/logic/parser/Parser.java:204-242 | createResult returns the formula of the range for the root the scan found |
| FormulaParsing.CreateOperatorResult | src/net/ssehub/kernel_haven/util/logic/parser/Parser.java:207-224 | a root at bracket level 0 splits the range around it |
| FormulaParsing.FailedRoot | src/net/ssehub/kernel_haven/util/logic/parser/Parser.java:124-190 | when the range has no valid root, parsing raises ExpressionFormatException |
| FormulaParsing.UnwrappedRoot | src/net/ssehub/kernel_haven/util/logic/parser/Parser.java:225-240 | a range that is one bracketed group parses as its inside |
| FormulaParsing.CreateBinary | src/net/ssehub/kernel_haven/util/logic/parser/Parser.java:211-214 | a binary root: the left part, then the right part, then makeBinaryFormula |
| FormulaParsing.CreateBinaryRight | src/net/ssehub/kernel_haven/util/logic/parser/Parser.java:213-214 | once the left part has parsed, the right part's error, else the grammar's binary formula of both parts: the whole binary range's parse |
| FormulaParsing.BinaryRoot | src/net/ssehub/kernel_haven/util/logic/parser/Parser.java:211-214 | a binary root's result is the left error, else the right error, else the grammar's binary formula of both parts |
| FormulaParsing.CreateUnary | src/net/ssehub/kernel_haven/util/logic/parser/Parser.java:216-223 | a unary root in first position: the rest of the range, then makeUnaryFormula |
| FormulaParsing.ParseExpression | src/net/ssehub/kernel_haven/util/logic/parser/Parser.java:36-96 | lex then parse of the whole token array computes the parse of the expression |
| FormulaParsing.ScanStepRoot | src/net/ssehub/kernel_haven/util/logic/parser/Parser.java:160-177 | one operator step of the scan keeps the root the first shallowest operator with the highest precedence so far |
| FormulaParsing.ScanCharacterised | src/net/ssehub/kernel_haven/util/logic/parser/Parser.java:147-183 | the scan fails exactly when some prefix closes more brackets than it opened, and otherwise ends at the final depth with the root of all tokens |
| FormulaParsing.RootOperator | src/net/ssehub/kernel_haven/util/logic/parser/Parser.java:143-183 | the root is the first operator among those at the shallowest depth with the highest precedence number, and the scan fails exactly on over-closed brackets |
| FormulaParsing.SplitRangesBalanced | src/net/ssehub/kernel_haven/util/logic/parser/Parser.java:181-183 | every range the parser splits or unwraps has balanced brackets |
| FormulaParsing.NestedRootUnwraps | src/net/ssehub/kernel_haven/util/logic/parser/Parser.java:225-240 | a range whose operators all sit inside brackets is parsed as its one bracketed group, or rejected |
| FormulaParsing.UnaryRootFirst | src/net/ssehub/kernel_haven/util/logic/parser/Parser.java:216-219 | a unary root must be the first token, and its operand is the rest of the range |
| FormulaEvaluation.KNot | src/net/ssehub/kernel_haven/util/logic/FormulaEvaluator.java:58-61 | negation keeps null and flips a defined value |
| FormulaEvaluation.KOr | src/net/ssehub/kernel_haven/util/logic/FormulaEvaluator.java:64-79 | true exactly when one side is true, false exactly when both are false, otherwise null |
| FormulaEvaluation.KAnd | src/net/ssehub/kernel_haven/util/logic/FormulaEvaluator.java:82-97 | false exactly when one side is false, true exactly when both are true, otherwise null |
| FormulaEvaluation.EvalTotal | src/net/ssehub/kernel_haven/util/logic/FormulaEvaluator.java:43-97 | with every variable mapped the evaluator never answers null and agrees with classical logic |
| FormulaEvaluation.EvalMonotone | src/net/ssehub/kernel_haven/util/logic/FormulaEvaluator.java:43-97 | a defined result stays the same when more variables are mapped |
| FormulaEvaluation.UndefinedNeedsUnmapped | src/net/ssehub/kernel_haven/util/logic/FormulaEvaluator.java:53-56 | a null result needs some unmapped variable of the formula |
| VariableFinding.VariableFinder.constructor | src/net/ssehub/kernel_haven/util/logic/VariableFinder.java:32 | a new finder holds no variables |
| VariableFinding.VariableFinder.Visit | src/net/ssehub/kernel_haven/util/logic/VariableFinder.java:35-73 | visiting adds exactly the formula's variables and returns the accumulated set |
| VariableFinding.VariableFinder.GetVariableNames | src/net/ssehub/kernel_haven/util/logic/VariableFinder.java:84-90 | one name per collected variable, with no duplicates |
| VariableFinding.VariableFinder.Clear | src/net/ssehub/kernel_haven/util/logic/VariableFinder.java:95-97 | clear empties the set |
| DisjunctionQueues.KOrAssociative | src/net/ssehub/kernel_haven/util/logic/FormulaEvaluator.java:64-79 | three-valued disjunction is associative |
| DisjunctionQueues.KOrCommutative | src/net/ssehub/kernel_haven/util/logic/FormulaEvaluator.java:64-79 | three-valued disjunction is commutative |
| DisjunctionQueues.AnyOfConcat | src/net/ssehub/kernel_haven/util/logic/DisjunctionQueue.java:150-153 | the disjunction of two queues joined is the disjunction of their disjunctions |
| DisjunctionQueues.AnyOfRound | src/net/ssehub/kernel_haven/util/logic/DisjunctionQueue.java:150-153 | one round of the folding loop keeps the value of the disjunction |
| DisjunctionQueues.BalancedEval | src/net/ssehub/kernel_haven/util/logic/DisjunctionQueue.java:141-169 | the folded formula evaluates as the disjunction of the queued formulas under every partial assignment |
| DisjunctionQueues.AnyOfTrue | src/net/ssehub/kernel_haven/util/logic/DisjunctionQueue.java:141-169 | the disjunction is true exactly when some queued formula is true |
| DisjunctionQueues.BalancedOccurrences | src/net/ssehub/kernel_haven/util/logic/DisjunctionQueue.java:150-154 | the fold uses every queued formula exactly once: its variable occurrences are those of the queue, rearranged |
| DisjunctionQueues.RoundOccurrences | src/net/ssehub/kernel_haven/util/logic/DisjunctionQueue.java:150-153 | one round of the loop keeps the occurrences up to order |
| DisjunctionQueues.DisjunctionQueue.constructor | src/net/ssehub/kernel_haven/util/logic/DisjunctionQueue.java:92-95 | a new queue is empty, not true, and has a simplifier only when simplification is on |
| DisjunctionQueues.DisjunctionQueue.Add | src/net/ssehub/kernel_haven/util/logic/DisjunctionQueue.java:101-117 | null is ignored; without simplification every formula is queued; with it, nothing is added after true, true only sets the flag, and a repeated formula is skipped |
| DisjunctionQueues.DisjunctionQueue.GetDisjunction | src/net/ssehub/kernel_haven/util/logic/DisjunctionQueue.java:141-169 | true after a true was added, false for an empty queue, otherwise the balanced fold (simplified when a simplifier is set); the queue is reset in every case |
| DisjunctionQueues.DisjunctionQueue.Reset | src/net/ssehub/kernel_haven/util/logic/DisjunctionQueue.java:171-175 | the queue returns to the state of a new one |
| VariableReplacement.ReplaceEval | src/net/ssehub/kernel_haven/util/logic/VariableValueReplacer.java:47-92 | replacing is substitution: the result evaluates as the original with the matching variables set to the constant |
| VariableReplacement.ReplaceVars | src/net/ssehub/kernel_haven/util/logic/VariableValueReplacer.java:57-73 | exactly the non-matching variables survive |
| VariableReplacement.NoMatchUnchanged | src/net/ssehub/kernel_haven/util/logic/VariableValueReplacer.java:57-73 | without a matching variable the formula is unchanged |
| VariableReplacement.ExactIsPrefix | src/net/ssehub/kernel_haven/util/logic/VariableValueReplacer.java:60-64 | exact matching replaces a subset of what prefix matching replaces |
| VariableReplacement.ReplaceKeepsShape | src/net/ssehub/kernel_haven/util/logic/VariableValueReplacer.java:75-92 | the connectives are kept, so the literal size drops by exactly the replaced occurrences |
| FormulaSimplification.SimplifyResult | src/net/ssehub/kernel_haven/util/logic/FormulaSimplifier.java:101-211 | every result is true, false or a formula with no constant and no reducible pattern inside |
| FormulaSimplification.ReducedUnchanged | src/net/ssehub/kernel_haven/util/logic/FormulaSimplifier.java:130-136 | a formula the rules do not apply to comes back unchanged |
| FormulaSimplification.SimplifyIdempotent | src/net/ssehub/kernel_haven/util/logic/FormulaSimplifier.java:101-211 | simplifying twice gives the same as once |
| FormulaSimplification.StepNot | src/net/ssehub/kernel_haven/util/logic/FormulaSimplifier.java:116-140 | the negation rules keep the three-valued value |
| FormulaSimplification.StepOr | src/net/ssehub/kernel_haven/util/logic/FormulaSimplifier.java:143-174 | the disjunction rules keep the three-valued value |
| FormulaSimplification.StepAnd | src/net/ssehub/kernel_haven/util/logic/FormulaSimplifier.java:177-208 | the conjunction rules keep the three-valued value |
| FormulaSimplification.SimplifyPreservesEval | src/net/ssehub/kernel_haven/util/logic/FormulaSimplifier.java:101-211 | the result evaluates like the input under every partial assignment |
| FormulaSimplification.SimplifyVars | src/net/ssehub/kernel_haven/util/logic/FormulaSimplifier.java:101-211 | simplification never introduces a variable |
| FormulaSimplification.DoubleNegation | src/net/ssehub/kernel_haven/util/logic/FormulaSimplifier.java:120-121 | a double negation simplifies like its operand |
| FormulaSimplification.SameOperands | src/net/ssehub/kernel_haven/util/logic/FormulaSimplifier.java:143-208 | a disjunction or conjunction of equal operands simplifies like the operand |
| CppAst.SplitOperands | src/net/ssehub/kernel_haven/util/cpp/parser/CppParser.java:354-363 | a list's operands and operators are those left of a position, at it, and right of it, in order |
| CppLexing.GetOperator | src/net/ssehub/kernel_haven/util/cpp/parser/CppParser.java:573-636 | an operator is read only where an operator character stands, and it is in the form the lexer produces (binary + and -) |
| CppLexing.OperatorFor | src/net/ssehub/kernel_haven/util/cpp/parser/CppParser.java:579-633 | the operator chosen for a character and its successor is in lexed form |
| CppLexing.OperatorForSpelled | src/net/ssehub/kernel_haven/util/cpp/parser/CppParser.java:579-633 | the operator read is spelled by the characters it was read from |
| CppLexing.OperatorForLongestMatch | src/net/ssehub/kernel_haven/util/cpp/parser/CppParser.java:579-633 | two-character operators win over their one-character prefixes |
| CppLexing.GetOperatorLongestMatch | src/net/ssehub/kernel_haven/util/cpp/parser/CppParser.java:573-636 | wherever a symbol of the table stands, getOperator reads an operator spelled there and at least as long |
| CppLexing.OperatorForSymbol | src/net/ssehub/kernel_haven/util/cpp/parser/CppParser.java:579-633 | a symbol not followed by a character that could extend it reads as its own operator |
| CppLexing.SymbolLexesBack | src/net/ssehub/kernel_haven/util/cpp/parser/CppParser.java:573-636 | corrected table: every symbol, followed by the end or a non-operator character, lexes back to its operator (unary + and - as binary) |
| CppLexing.ModSymbolAsWrittenReadsAsAnd | src/net/ssehub/kernel_haven/util/cpp/parser/CppOperator.java:22 | as written: INT_MOD's symbol "&" reads back as BIN_AND, while "%" reads as INT_MOD |
| CppLexing.IdentRun | src/net/ssehub/kernel_haven/util/cpp/parser/CppParser.java:513-519 | the identifier run at the front is maximal |
| CppLexing.LexStep | src/net/ssehub/kernel_haven/util/cpp/parser/CppParser.java:490-523 | each step consumes at least one character; an invalid character raises ExpressionFormatException |
| CppLexing.GetOperatorSpelled | src/net/ssehub/kernel_haven/util/cpp/parser/CppParser.java:573-636 | the operator getOperator reads is spelled out where it is read |
| CppLexing.Lexed | src/net/ssehub/kernel_haven/util/cpp/parser/CppParser.java:483-527 | lexing fails only with ExpressionFormatException |
| CppLexing.ContinueSingle | src/net/ssehub/kernel_haven/util/cpp/parser/CppParser.java:494-511 | a non-identifier character adds its token, if any, and closes the open identifier |
| CppLexing.ContinueToken | src/net/ssehub/kernel_haven/util/cpp/parser/CppParser.java:494-511 | a whitespace, bracket or operator character closes the open identifier and adds its token |
| CppLexing.LexedIdentifier | src/net/ssehub/kernel_haven/util/cpp/parser/CppParser.java:513-519 | a maximal run of identifier characters becomes one identifier token |
| CppLexing.ContinueOpen | src/net/ssehub/kernel_haven/util/cpp/parser/CppParser.java:514-517 | an identifier character with no open identifier opens one |
| CppLexing.ContinueExtend | src/net/ssehub/kernel_haven/util/cpp/parser/CppParser.java:518-519 | an identifier character extends the open identifier |
| CppLexing.UnknownCharacterRejected | src/net/ssehub/kernel_haven/util/cpp/parser/CppParser.java:521-523 | a character that can start no token makes lexing raise ExpressionFormatException wherever it stands |
| CppLexing.StepSkipsUnknown | src/net/ssehub/kernel_haven/util/cpp/parser/CppParser.java:490-523 | a lexer step never consumes a character that can start no token, except as its first |
| CppLexing.LexSpacedRoundTrip | src/net/ssehub/kernel_haven/util/cpp/parser/CppParser.java:483-527 | printing tokens each followed by a space and lexing the text gives the tokens back |
| CppLexing.LexSymbol | src/net/ssehub/kernel_haven/util/cpp/parser/CppParser.java:494-511 | one pass at a whitespace, bracket or operator character advances and keeps the remaining tokens |
| CppLexing.SymbolStepAt | src/net/ssehub/kernel_haven/util/cpp/parser/CppParser.java:494-511 | at a whitespace, bracket or operator character the lexer step is that character's token and length |
| CppLexing.LexIdentifierChar | src/net/ssehub/kernel_haven/util/cpp/parser/CppParser.java:513-519 | one pass at an identifier character leaves an open identifier last |
| CppLexing.Lex | src/net/ssehub/kernel_haven/util/cpp/parser/CppParser.java:483-527 | the lexer loop computes the tokens of the expression, or its ExpressionFormatException |
| CppOperators.Precedence | src/net/ssehub/kernel_haven/util/cpp/parser/CppOperator.java:12-38 | the precedences run from 1 (\|\|) and 2 (&&) to 11, which exactly the unary operators have |
| CppOperators.SymbolAsWritten | src/net/ssehub/kernel_haven/util/cpp/parser/CppOperator.java:12-38 | as written: every symbol but INT_MOD's is the corrected one, and lengths agree |
| CppOperators.Symbol | src/net/ssehub/kernel_haven/util/cpp/parser/CppOperator.java:12-38 | every symbol has one or two characters |
| CppNesting.Add | src/net/ssehub/kernel_haven/util/cpp/parser/CppParser.java:428 | adding to the innermost open list keeps the number of open lists |
| CppNesting.NestNext | src/net/ssehub/kernel_haven/util/cpp/parser/CppParser.java:419-449 | one token of the nesting loop: the rest continues from the new stack |
| CppNesting.NestStops | src/net/ssehub/kernel_haven/util/cpp/parser/CppParser.java:431-436 | a closing bracket with only the outer list open raises ExpressionFormatException |
| CppNesting.NestBrackets | src/net/ssehub/kernel_haven/util/cpp/parser/CppParser.java:416-462 | the nesting loop computes the bracket tree of the tokens, or its ExpressionFormatException |
| CppNesting.NestDepth | src/net/ssehub/kernel_haven/util/cpp/parser/CppParser.java:419-455 | nesting succeeds exactly when no prefix closes more lists than are open, leaving as many open lists as brackets are unclosed |
| CppNesting.BracketedBalanced | src/net/ssehub/kernel_haven/util/cpp/parser/CppParser.java:416-462 | the bracket stage succeeds exactly on balanced token sequences |
| CppNesting.NestRender | src/net/ssehub/kernel_haven/util/cpp/parser/CppParser.java:419-449 | the nested lists, printed back, are the tokens consumed |
| CppNesting.NestedRoundTrip | src/net/ssehub/kernel_haven/util/cpp/parser/CppParser.java:416-462 | the outermost list gives back exactly the tokens it was built from |
| CppParsing.ParseExpression | src/net/ssehub/kernel_haven/util/cpp/parser/CppParser.java:413-473 | parse is lex, bracket nesting, unpacking a single element, then the four visitors in order |
| CppParsing.ParseEmpty | src/net/ssehub/kernel_haven/util/cpp/parser/CppParser.java:282-284 | an empty expression is rejected with ExpressionFormatException |
| CppResolution.Lowest | src/net/ssehub/kernel_haven/util/cpp/parser/CppParser.java:289-305 | the split position is -1 or the position of an operator |
| CppResolution.FindLowestOperator | src/net/ssehub/kernel_haven/util/cpp/parser/CppParser.java:289-305 | the search loop finds the split position |
| CppResolution.LowestCharacterised | src/net/ssehub/kernel_haven/util/cpp/parser/CppParser.java:289-305 | the split operator has the lowest precedence of the list and is the first such (as written) or the last (corrected) |
| CppResolution.VisitResolve | src/net/ssehub/kernel_haven/util/cpp/parser/CppParser.java:272-397 | the OperatorResolver visitor computes the resolved tree or its error |
| CppResolution.VisitList | src/net/ssehub/kernel_haven/util/cpp/parser/CppParser.java:277-319 | an empty list is rejected, a single element is resolved, otherwise the list is split at its lowest operator |
| CppResolution.ParseParameters | src/net/ssehub/kernel_haven/util/cpp/parser/CppParser.java:331-370 | a unary operator takes the rest of the list (first position, or last for ++ and --), a binary one both non-empty sides; otherwise ExpressionFormatException |
| CppResolution.Sides | src/net/ssehub/kernel_haven/util/cpp/parser/CppParser.java:354-363 | the pass collects exactly the elements left and right of the operator |
| CppResolution.ResolveKeeps | src/net/ssehub/kernel_haven/util/cpp/parser/CppParser.java:272-397 | resolving keeps the operands in left-to-right order and every operator |
| CppResolution.ResolveLeavesNoLists | src/net/ssehub/kernel_haven/util/cpp/parser/CppParser.java:272-397 | after the resolver no expression list is left |
| CppResolution.ResolvedRoot | src/net/ssehub/kernel_haven/util/cpp/parser/CppParser.java:289-316 | a list of two or more resolves to the operator it is split at, with its sides filled |
| CppResolution.NoOperatorRejected | src/net/ssehub/kernel_haven/util/cpp/parser/CppParser.java:307-308 | a list of two or more without an operator is rejected |
| CppResolution.GroupsToTheRight | src/net/ssehub/kernel_haven/util/cpp/parser/CppParser.java:299-303 | as written: A - B + C is split at '-' and read as A - (B + C) |
| CppResolution.GroupsToTheLeft | src/net/ssehub/kernel_haven/util/cpp/parser/CppParser.java:299-303 | corrected: taking the last lowest operator reads A - B + C as (A - B) + C |
| CppVisitors.LiteralValue | src/net/ssehub/kernel_haven/util/cpp/parser/CppParser.java:157-179 | a digit-led name is a literal only when it converts to a long; otherwise ExpressionFormatException |
| CppVisitors.VisitLiterals | src/net/ssehub/kernel_haven/util/cpp/parser/CppParser.java:132-191 | the LiteralFinder visitor computes its specification |
| CppVisitors.FindLiteralsLeavesNoNumberNames | src/net/ssehub/kernel_haven/util/cpp/parser/CppParser.java:156-179 | after a successful LiteralFinder every digit-led name has become a literal |
| CppVisitors.StripAddedSuffix | src/net/ssehub/kernel_haven/util/cpp/parser/CppParser.java:161-167 | stripping a suffix ul, ull or l leaves the number text |
| CppVisitors.DecimalLiteral | src/net/ssehub/kernel_haven/util/cpp/parser/CppParser.java:157-179 | a long's decimal text with an l, ul or ull suffix is the literal of that long |
| CppVisitors.HexLiteral | src/net/ssehub/kernel_haven/util/cpp/parser/CppParser.java:157-179 | "0x" and a long's hexadecimal digits, with a suffix, is the literal of that long |
| CppVisitors.TranslateCalls | src/net/ssehub/kernel_haven/util/cpp/parser/CppParser.java:196-267 | the translator maps a list to a list; a call met inside is an error |
| CppVisitors.VisitCalls | src/net/ssehub/kernel_haven/util/cpp/parser/CppParser.java:198-245 | the FunctionCallTranslator visitor computes its specification |
| CppVisitors.ArgumentKeeps | src/net/ssehub/kernel_haven/util/cpp/parser/CppParser.java:216-223 | unpacking a call's argument list keeps its names and operators |
| CppVisitors.TranslateKeeps | src/net/ssehub/kernel_haven/util/cpp/parser/CppParser.java:196-267 | the translator keeps every name in order and every operator |
| CppVisitors.UnaryForm | src/net/ssehub/kernel_haven/util/cpp/parser/CppParser.java:82-93 | marking makes exactly + and - unary and keeps the lexed form |
| CppVisitors.FindUnary | src/net/ssehub/kernel_haven/util/cpp/parser/CppParser.java:113-125 | an operator stays an operator and nothing else becomes one |
| CppVisitors.FindUnaryIn | src/net/ssehub/kernel_haven/util/cpp/parser/CppParser.java:77-98 | the pass keeps the list length |
| CppVisitors.FindUnaryInStep | src/net/ssehub/kernel_haven/util/cpp/parser/CppParser.java:77-98 | one pass of the loop stores the marked element and leaves the rest for later passes |
| CppVisitors.VisitUnary | src/net/ssehub/kernel_haven/util/cpp/parser/CppParser.java:71-127 | the UnaryOperatorFinder visitor computes its specification |
| CppVisitors.UnaryPlaces | src/net/ssehub/kernel_haven/util/cpp/parser/CppParser.java:80-94 | an operator is unary afterwards exactly when it was, or it is + or - standing first or right after another operator |
| NumberUtils.CharDigit | src/net/ssehub/kernel_haven/util/cpp/NumberUtils.java:29 | Character.digit: a value below the radix or -1, and in radix 10 a value exactly for the decimal digits |
| NumberUtils.RadixRoundTrip | src/net/ssehub/kernel_haven/util/cpp/NumberUtils.java:57 | the digits printed for a number are worth that number |
| NumberUtils.IsIntegerAsWritten | src/net/ssehub/kernel_haven/util/cpp/NumberUtils.java:19-36 | as written: the loop's answer is the integer-text check that also runs the digit test on a leading '-' |
| NumberUtils.IsInteger | src/net/ssehub/kernel_haven/util/cpp/NumberUtils.java:19-36 | corrected: the loop's answer is the integer-text check that skips a leading '-' that is not alone |
| NumberUtils.AsWrittenRejectsNegatives | src/net/ssehub/kernel_haven/util/cpp/NumberUtils.java:24-31 | as written: the text of a negative number is never an integer |
| NumberUtils.IntegerTextOfToString | src/net/ssehub/kernel_haven/util/cpp/NumberUtils.java:19-36 | corrected: the text of every number is accepted |
| NumberUtils.IntegerTextExtends | src/net/ssehub/kernel_haven/util/cpp/NumberUtils.java:19-36 | the corrected check accepts everything the as-written one does, plus exactly the texts starting with '-' |
| NumberUtils.LongValueOf | src/net/ssehub/kernel_haven/util/cpp/NumberUtils.java:50 | Long.valueOf yields only values inside the long range |
| NumberUtils.DecimalLongValueOf | src/net/ssehub/kernel_haven/util/cpp/NumberUtils.java:50 | in radix 10 Long.valueOf agrees with Long.parseLong |
| NumberUtils.LongValue | src/net/ssehub/kernel_haven/util/cpp/NumberUtils.java:67 | Double.longValue stays in the long range and is exact for integral values inside it |
| NumberUtils.FromDouble | src/net/ssehub/kernel_haven/util/cpp/NumberUtils.java:62-73 | a parsed double becomes a Long exactly when it is finite and integral, otherwise it stays a Double; an unparseable text gives null |
| NumberUtils.ConvertToNumber | src/net/ssehub/kernel_haven/util/cpp/NumberUtils.java:44-77 | a Long result is in range, and text neither integer check accepts goes through the double branch |
| NumberUtils.ConvertDigitsRoundTrip | src/net/ssehub/kernel_haven/util/cpp/NumberUtils.java:44-77 | the text of a non-negative number converts back to it when it is a long and to null otherwise, under either check |
| NumberUtils.ConvertDecimalRoundTrip | src/net/ssehub/kernel_haven/util/cpp/NumberUtils.java:44-77 | corrected: the text of every number converts back to it when it is a long and to null otherwise |
| NumberUtils.NegativeViaDouble | src/net/ssehub/kernel_haven/util/cpp/NumberUtils.java:47-74 | as written: the text of a negative number goes through the double branch |
| NumberUtils.AsWrittenSaturates | src/net/ssehub/kernel_haven/util/cpp/NumberUtils.java:61-70 | as written: a number below the long range saturates to Long.MIN_VALUE, where the corrected check reports null |
| NumberUtils.HexNegative | src/net/ssehub/kernel_haven/util/cpp/NumberUtils.java:54-60 | as written: "0x-5" is null; corrected, it reads as -5 |
| NumberUtils.ConvertHexRoundTrip | src/net/ssehub/kernel_haven/util/cpp/NumberUtils.java:54-60 | "0x" and the hexadecimal digits of a non-negative long convert back to that long |
| Settings.Setting.constructor | src/net/ssehub/kernel_haven/config/Setting.java:126-136 | a setting keeps its key, type, mandatory flag, default value and description |
| Settings.Setting.List | src/net/ssehub/kernel_haven/config/ListSetting.java:49-53 | a list setting without default: type LIST, no default value, nested type kept |
| Settings.Setting.ListWithDefault | src/net/ssehub/kernel_haven/config/ListSetting.java:66-71 | a list setting with a default: type LIST, mandatory, the default text as its default value |
| Settings.Setting.Enum | src/net/ssehub/kernel_haven/config/EnumSetting.java:47-53 | an enum setting: type ENUM, the default constant's name as its default value |
| Settings.ElementTexts | src/net/ssehub/kernel_haven/config/ListSetting.java:94-100 | one text per element of the list, in order |
| Settings.DefaultToString | src/net/ssehub/kernel_haven/config/ListSetting.java:91-107 | the loop computes the default text: elements joined by ", ", or RuntimeException at the first element holding a comma |
| Settings.NewListSetting | src/net/ssehub/kernel_haven/config/ListSetting.java:66-71 | the setting is created exactly when the default text can be built, and it then carries that text; otherwise RuntimeException |
| Settings.EmptyDefault | src/net/ssehub/kernel_haven/config/ListSetting.java:102-106 | an empty default list has the empty default text |
| Configurations.IndexedKeysCount | src/net/ssehub/kernel_haven/config/Configuration.java:367-368 | the keys key.0 .. key.(n-1) are n distinct keys |
| Configurations.RunBound | src/net/ssehub/kernel_haven/config/Configuration.java:367-368 | a run of present indexed keys is no longer than the properties |
| Configurations.RunOf | src/net/ssehub/kernel_haven/config/Configuration.java:364-371 | the run from key.i is the values under key.i, key.(i+1), ... up to the first missing key |
| Configurations.FileValue | src/net/ssehub/kernel_haven/config/Configuration.java:306-329 | a file is returned as given or, when it is retried below source_tree, only if it exists there; with checks on a missing file is a SetUpException |
| Configurations.ParseValue | src/net/ssehub/kernel_haven/config/Configuration.java:243-294 | a missing value is an error exactly for a mandatory setting with checks on; a present value is trimmed and converted, an int only within int range |
| Configurations.Convert | src/net/ssehub/kernel_haven/config/Configuration.java:253-291 | the type switch: list and enum are unknown here (SetUpException), an integer is an int |
| Configurations.TrimmedValue | src/net/ssehub/kernel_haven/config/Configuration.java:252 | trimming a value before parseValue changes nothing |
| Configurations.IntegerRoundTrip | src/net/ssehub/kernel_haven/config/Configuration.java:257-263 | an int printed as text reads back as the same Integer |
| Configurations.SplitList | src/net/ssehub/kernel_haven/config/Configuration.java:359-361 | one trimmed part per part of String.split(",") |
| Configurations.ListTextRoundTrip | src/net/ssehub/kernel_haven/config/Configuration.java:373-378 | the default text ListSetting writes, ", " between elements, is split back into the same elements |
| Configurations.DefaultTextRoundTrip | src/net/ssehub/kernel_haven/config/ListSetting.java:91-107 | the default text built from a list of present elements reads back as their texts |
| Configurations.DefaultListRead | src/net/ssehub/kernel_haven/config/Configuration.java:373-378 | a String list setting with neither its key nor key.0 present reads back the elements of its default list |
| Configurations.EmptyDefaultList | src/net/ssehub/kernel_haven/config/Configuration.java:373-378 | an empty default list reads back as a list holding one empty String, since split("") gives one empty part |
| Configurations.ListValueOf | src/net/ssehub/kernel_haven/config/Configuration.java:339-385 | readListSetting yields a list whenever it succeeds |
| Configurations.EnumValueOf | src/net/ssehub/kernel_haven/config/Configuration.java:395-424 | an enum value is the constant named by the upper-cased text |
| Configurations.RemoveRun | src/net/ssehub/kernel_haven/config/Configuration.java:484-491 | the loop over key.0, key.1, ... only removes keys |
| Configurations.RemoveRunOnlyIndexed | src/net/ssehub/kernel_haven/config/Configuration.java:484-491 | only indexed keys of the base from index i on are removed |
| Configurations.RemoveRunRemoves | src/net/ssehub/kernel_haven/config/Configuration.java:484-491 | every key of a present run key.i .. key.(n-1) is removed |
| Configurations.RemoveIndexedKeys | src/net/ssehub/kernel_haven/config/Configuration.java:484-491 | the loop computes the removal of the run |
| Configurations.RemoveSetting | src/net/ssehub/kernel_haven/config/Configuration.java:481-496 | a registered setting's key never survives its step |
| Configurations.UnusedKeys | src/net/ssehub/kernel_haven/config/Configuration.java:472-500 | the unused keys are a subset of the property keys |
| Configurations.SettingKeysUsed | src/net/ssehub/kernel_haven/config/Configuration.java:481-496 | no registered setting's key is reported as unused |
| Configurations.OtherKeysUnused | src/net/ssehub/kernel_haven/config/Configuration.java:472-500 | a key no setting uses, as its key or as an indexed key of a list setting, is reported as unused |
| Configurations.MergeKeys | src/net/ssehub/kernel_haven/config/Configuration.java:140-147 | the merged keys are the file's own and those of every included file |
| Configurations.MergeOwnFirst | src/net/ssehub/kernel_haven/config/Configuration.java:140-147 | keys the file sets itself keep their own values |
| Configurations.MergeHighestIndex | src/net/ssehub/kernel_haven/config/Configuration.java:140-147 | any other key takes its value from the included file with the highest index that sets it |
| Configurations.PutAllAbsent | src/net/ssehub/kernel_haven/config/Configuration.java:144-146 | the inner loop adds exactly the absent entries of the included file |
| Configurations.LoadProperties | src/net/ssehub/kernel_haven/config/Configuration.java:114-150 | loadFile collects the include_file.i files up to the first gap, fails with the first failing load, and merges them from the highest index down |
| Configurations.CollectStep | src/net/ssehub/kernel_haven/config/Configuration.java:120-138 | one include key: a failing load fails the whole load, a successful one is collected |
| Configurations.CollectDone | src/net/ssehub/kernel_haven/config/Configuration.java:135-137 | at the first missing include key the result is the merge of what was collected |
| Configurations.MergeIncluded | src/net/ssehub/kernel_haven/config/Configuration.java:143-147 | the merge loop computes the merge with earlier-set keys taking precedence |
| Configurations.Configuration.constructor | src/net/ssehub/kernel_haven/config/Configuration.java:77-82 | a new configuration has the properties, the checks flag, no settings and no values |
| Configurations.Configuration.RegisterSetting | src/net/ssehub/kernel_haven/config/Configuration.java:161-181 | the same setting again is a no-op, another setting with a registered key is a SetUpException, and a new setting is recorded first, then its value is stored if reading succeeds |
| Configurations.Configuration.GetValue | src/net/ssehub/kernel_haven/config/Configuration.java:194-199 | the stored value of a registered setting; IllegalArgumentException exactly when it has none |
| Configurations.Configuration.SetValue | src/net/ssehub/kernel_haven/config/Configuration.java:211-216 | overwrites the value of a setting that has one, otherwise IllegalArgumentException and nothing changes |
| Configurations.Configuration.ParseCommaList | src/net/ssehub/kernel_haven/config/Configuration.java:357-362 | the comma branch parses every trimmed part as a mandatory element |
| Configurations.Configuration.ParseIndexedList | src/net/ssehub/kernel_haven/config/Configuration.java:364-371 | the indexed branch parses the run key.0, key.1, ... up to the first gap |
| Configurations.Configuration.ReadListSetting | src/net/ssehub/kernel_haven/config/Configuration.java:339-385 | the method computes readListSetting's specification |
| Configurations.Configuration.InOrder | src/net/ssehub/kernel_haven/config/Configuration.java:481 | one registered setting per registration |
| Configurations.Configuration.GetUnusedKeys | src/net/ssehub/kernel_haven/config/Configuration.java:472-500 | the property keys minus what each registered setting uses |
| BuildModels.Parent | src/net/ssehub/kernel_haven/build_model/BuildModel.java:81-85 | the parent of a file exists exactly when the path has at least two names, and is the path without its last name |
| BuildModels.NearestFound | src/net/ssehub/kernel_haven/build_model/BuildModel.java:88-94 | the upward walk returns the PC of the longest stored prefix of the file (the file itself or its nearest stored ancestor) |
| BuildModels.NearestNone | src/net/ssehub/kernel_haven/build_model/BuildModel.java:88-94 | when neither the file nor any ancestor is stored, the walk returns null |
| BuildModels.NearestSound | src/net/ssehub/kernel_haven/build_model/BuildModel.java:88-94 | whatever the walk returns is stored at a prefix of the file, and no longer prefix is stored |
| BuildModels.NearestIgnoresDeeper | src/net/ssehub/kernel_haven/build_model/BuildModel.java:83-94 | an entry for a path longer than the walk's start never changes the walk's answer |
| BuildModels.DirectoryIgnoresFile | src/net/ssehub/kernel_haven/build_model/BuildModel.java:79-86 | with DIRECTORY keys an entry stored under the file itself has no effect on its PC |
| BuildModels.AddKeepsFound | src/net/ssehub/kernel_haven/build_model/BuildModel.java:62-64 | adding an entry never makes the upward walk lose a PC it found before |
| BuildModels.AddKeepsPc | src/net/ssehub/kernel_haven/build_model/BuildModel.java:62-98 | under every key type, a file that had a PC still has one after any add |
| BuildModels.DirectoryKeyNotFile | src/net/ssehub/kernel_haven/build_model/BuildModel.java:113-135 | with DIRECTORY keys containsKey can be true while containsFile is false for the same path |
| BuildModels.BuildModel.constructor | src/net/ssehub/kernel_haven/build_model/BuildModel.java:30-33 | a new model is empty and has FILE keys |
| BuildModels.BuildModel.SetKeyType | src/net/ssehub/kernel_haven/build_model/BuildModel.java:49-51 | replacing the descriptor changes the key type and leaves the stored PCs alone |
| BuildModels.BuildModel.Add | src/net/ssehub/kernel_haven/build_model/BuildModel.java:62-64 | the PC is stored under the file, overwriting an earlier entry, and nothing else changes |
| BuildModels.BuildModel.GetPc | src/net/ssehub/kernel_haven/build_model/BuildModel.java:74-98 | the two loops return the lookup the key type prescribes: exact for FILE, proper ancestors for DIRECTORY, file then ancestors for FILE_AND_DIRECTORY |
| BuildModels.BuildModel.GetPcDirect | src/net/ssehub/kernel_haven/build_model/BuildModel.java:109-111 | a PC is returned exactly when the key is stored, and it is the stored one |
| BuildModels.BuildModel.ContainsKey | src/net/ssehub/kernel_haven/build_model/BuildModel.java:121-123 | true exactly when getPcDirect finds the key |
| BuildModels.BuildModel.ContainsFile | src/net/ssehub/kernel_haven/build_model/BuildModel.java:133-135 | true exactly when getPc finds a PC under the current key type |
| BuildModels.BuildModel.Delete | src/net/ssehub/kernel_haven/build_model/BuildModel.java:141-143 | exactly this key is removed and the key type is unchanged |
| BuildModels.BuildModel.GetSize | src/net/ssehub/kernel_haven/build_model/BuildModel.java:150-152 | the number of stored keys |
| HierarchicalVariables.HierarchicalVariable.constructor | src/net/ssehub/kernel_haven/variability_model/HierarchicalVariable.java:56-59 | a new variable carries the name and type, DIMACS number 0, no locations, no parent, no children and depth 0 |
| HierarchicalVariables.HierarchicalVariable.WithNumber | src/net/ssehub/kernel_haven/variability_model/HierarchicalVariable.java:68-71 | as the plain constructor, with the given DIMACS number |
| HierarchicalVariables.HierarchicalVariable.Copy | src/net/ssehub/kernel_haven/variability_model/HierarchicalVariable.java:78-88 | the copy has the original's name, type and number and its source locations added one by one in order, and no family links |
| HierarchicalVariables.HierarchicalVariable.SetParent | src/net/ssehub/kernel_haven/variability_model/HierarchicalVariable.java:111-126 | the variable leaves its old parent's children, joins the new parent's children with depth parent+1 (int arithmetic), or gets depth 0 without a parent; parent/children agreement across the family is preserved |
| HierarchicalVariables.HierarchicalVariable.SetNestingDepth | src/net/ssehub/kernel_haven/variability_model/HierarchicalVariable.java:133-135 | only the depth changes |
| HierarchicalVariables.HierarchicalVariable.GetSerializationData | src/net/ssehub/kernel_haven/variability_model/HierarchicalVariable.java:219-239 | the result is the parent's name or "null", the child count, the children's names in reverse iteration order, the depth, then the plain variable's data |
| HierarchicalVariables.HierarchicalVariable.SetSerializationData | src/net/ssehub/kernel_haven/variability_model/HierarchicalVariable.java:243-304 | succeeds exactly when the layout reads back; sets the parent unless "null", adds the listed children, sets the depth and hands on the rest; every malformed entry is a FormatException |
| HierarchicalVariables.HierarchicalVariable.AddChildren | src/net/ssehub/kernel_haven/variability_model/HierarchicalVariable.java:278-290 | each listed name must denote a known hierarchical variable, and exactly those variables join the children |
| HierarchicalVariables.NamesOf | src/net/ssehub/kernel_haven/variability_model/HierarchicalVariable.java:226-228 | the names of the variables, position by position |
| HierarchicalVariables.Reversed | src/net/ssehub/kernel_haven/variability_model/HierarchicalVariable.java:226-228 | the sequence read from the back, as repeated insertion at index 0 leaves it |
| HierarchicalVariables.Layout | src/net/ssehub/kernel_haven/variability_model/HierarchicalVariable.java:219-239 | where each entry lies: parent name first, child count second, the names next, the depth after them, the base data at the end |
| HierarchicalVariables.ReadHierarchy | src/net/ssehub/kernel_haven/variability_model/HierarchicalVariable.java:243-301 | every failure is a FormatException, and a success consumes at least one entry |
| HierarchicalVariables.ReadParent | src/net/ssehub/kernel_haven/variability_model/HierarchicalVariable.java:251-261 | "null" means no parent; any other name must be a known hierarchical variable, else FormatException |
| HierarchicalVariables.ReadChildren | src/net/ssehub/kernel_haven/variability_model/HierarchicalVariable.java:264-301 | every failure (missing entry, bad integer, too few names, unknown child) is a FormatException, and a success consumes entries |
| HierarchicalVariables.LayoutRoundTrip | src/net/ssehub/kernel_haven/variability_model/HierarchicalVariable.java:219-304 | reading what getSerializationData wrote restores the parent, the children, the depth and leaves exactly the plain variable's data |
| HierarchicalVariables.NamesResolve | src/net/ssehub/kernel_haven/variability_model/HierarchicalVariable.java:278-290 | the written child names resolve back, in the same order, to the children |
| HierarchicalVariables.ChildrenRoundTrip | src/net/ssehub/kernel_haven/variability_model/HierarchicalVariable.java:264-301 | a count, that many known names, a depth and the rest read back as those children, that depth and that rest |
| HierarchicalVariables.NullNamedParentLost | src/net/ssehub/kernel_haven/variability_model/HierarchicalVariable.java:232-261 | a parent whose own name is "null" is written as "null" and so read back as no parent |
| HierarchicalVariables.ChildrenRestored | src/net/ssehub/kernel_haven/variability_model/HierarchicalVariable.java:226-229 | the set of children read back equals the set written, whatever the iteration order |
| VariabilityVariables.WithLocations | src/net/ssehub/kernel_haven/variability_model/VariabilityVariable.java:132-139 | after a series of addLocation calls the list is unchanged when nothing was added, else it is the old list (empty if null) followed by the added locations |
| VariabilityVariables.WithLocationsAppend | src/net/ssehub/kernel_haven/variability_model/VariabilityVariable.java:132-139 | adding a and then b is the same as adding a + b |
| VariabilityVariables.LocationToJson | src/net/ssehub/kernel_haven/variability_model/SourceLocation.java:83-90 | a location is written as an object of exactly two entries |
| VariabilityVariables.LocationFromJson | src/net/ssehub/kernel_haven/variability_model/SourceLocation.java:101-106 | only an object of exactly two entries is read; every failure is a FormatException |
| VariabilityVariables.LocationJsonRoundTrip | src/net/ssehub/kernel_haven/variability_model/SourceLocation.java:83-106 | fromJson reads back exactly the location toJson wrote |
| VariabilityVariables.ReadLocation | src/net/ssehub/kernel_haven/variability_model/VariabilityVariable.java:300-305 | a non-object list element is a FormatException |
| VariabilityVariables.LocationsToJson | src/net/ssehub/kernel_haven/variability_model/VariabilityVariable.java:250-257 | the JSON list holds each location's object, position by position |
| VariabilityVariables.LocationsRoundTrip | src/net/ssehub/kernel_haven/variability_model/VariabilityVariable.java:250-307 | reading the written location list yields the same locations in the same order |
| VariabilityVariables.BelowIrreflexive | src/net/ssehub/kernel_haven/variability_model/VariabilityVariable.java:264 | no name sorts before itself under String.compareTo |
| VariabilityVariables.BelowTransitive | src/net/ssehub/kernel_haven/variability_model/VariabilityVariable.java:264 | the compareTo order is transitive |
| VariabilityVariables.BelowTotal | src/net/ssehub/kernel_haven/variability_model/VariabilityVariable.java:264 | of two different names, one sorts before the other |
| VariabilityVariables.LeastExists | src/net/ssehub/kernel_haven/variability_model/VariabilityVariable.java:264 | every non-empty set of names has a smallest one, so sorting is defined |
| VariabilityVariables.LeastUnique | src/net/ssehub/kernel_haven/variability_model/VariabilityVariable.java:264 | the smallest name of a set is unique |
| VariabilityVariables.SortedNames | src/net/ssehub/kernel_haven/variability_model/VariabilityVariable.java:262-265 | the sorted stream holds each name of the set exactly once, in strictly increasing order |
| VariabilityVariables.Names | src/net/ssehub/kernel_haven/variability_model/VariabilityVariable.java:262-263 | the names of the variables: each variable's name, and nothing else |
| VariabilityVariables.NameList | src/net/ssehub/kernel_haven/variability_model/VariabilityVariable.java:259-266 | the written reference list consists of JSON strings only |
| VariabilityVariables.OptionalList | src/net/ssehub/kernel_haven/variability_model/VariabilityVariable.java:299-300 | an absent entry is no list; a present entry must be a list, which is returned |
| VariabilityVariables.ReadNames | src/net/ssehub/kernel_haven/variability_model/VariabilityVariable.java:309-324 | a missing list reads as no set; a non-string or an unknown name is a FormatException |
| VariabilityVariables.LocationsEntry | src/net/ssehub/kernel_haven/variability_model/VariabilityVariable.java:299-307 | a malformed sourceLocations entry is a FormatException |
| VariabilityVariables.ReferencesEntry | src/net/ssehub/kernel_haven/variability_model/VariabilityVariable.java:309-341 | a malformed reference entry is a FormatException |
| VariabilityVariables.ReadJson | src/net/ssehub/kernel_haven/variability_model/VariabilityVariable.java:292-342 | a success carries the dimacsNumber entry; every failure is a FormatException |
| VariabilityVariables.ResolveNames | src/net/ssehub/kernel_haven/variability_model/VariabilityVariable.java:311-322 | the loop resolves the names exactly as ReadNames specifies, failing with the same exception |
| VariabilityVariables.ReadReferences | src/net/ssehub/kernel_haven/variability_model/VariabilityVariable.java:309-341 | one optional reference list, read as ReferencesEntry specifies |
| VariabilityVariables.Header | src/net/ssehub/kernel_haven/variability_model/VariabilityVariable.java:244-248 | the new object holds the DIMACS number and none of the optional keys yet |
| VariabilityVariables.PutWhen | src/net/ssehub/kernel_haven/variability_model/VariabilityVariable.java:250-277 | a null element leaves the object alone; otherwise the key gets the element and every other key keeps its value |
| VariabilityVariables.NumberKept | src/net/ssehub/kernel_haven/variability_model/VariabilityVariable.java:248-277 | the optional entries do not disturb the DIMACS number |
| VariabilityVariables.LocationsWritten | src/net/ssehub/kernel_haven/variability_model/VariabilityVariable.java:250-257 | sourceLocations is present exactly when the locations are not null |
| VariabilityVariables.ReferencesWritten | src/net/ssehub/kernel_haven/variability_model/VariabilityVariable.java:259-267 | references is present exactly when that set is not null |
| VariabilityVariables.ReferencedByWritten | src/net/ssehub/kernel_haven/variability_model/VariabilityVariable.java:269-277 | referenced-by is present exactly when that set is not null |
| VariabilityVariables.PrefixWitness | src/net/ssehub/kernel_haven/variability_model/VariabilityVariable.java:300-306 | the locations of a read prefix are the ones added so far |
| VariabilityVariables.VariabilityVariable.constructor | src/net/ssehub/kernel_haven/variability_model/VariabilityVariable.java:95-98 | a new variable has DIMACS number 0, no locations and no reference sets |
| VariabilityVariables.VariabilityVariable.WithNumber | src/net/ssehub/kernel_haven/variability_model/VariabilityVariable.java:111-115 | as the plain constructor, with the given DIMACS number |
| VariabilityVariables.VariabilityVariable.AddLocation | src/net/ssehub/kernel_haven/variability_model/VariabilityVariable.java:132-139 | the list is created on first use and the location is appended; nothing else changes |
| VariabilityVariables.VariabilityVariable.SetDimacsNumber | src/net/ssehub/kernel_haven/variability_model/VariabilityVariable.java:191-193 | only the number changes |
| VariabilityVariables.VariabilityVariable.SetVariablesUsedInConstraints | src/net/ssehub/kernel_haven/variability_model/VariabilityVariable.java:201-203 | only the references set changes |
| VariabilityVariables.VariabilityVariable.SetUsedInConstraintsOfOtherVariables | src/net/ssehub/kernel_haven/variability_model/VariabilityVariable.java:221-225 | only the referenced-by set changes |
| VariabilityVariables.VariabilityVariable.DimacsMapping | src/net/ssehub/kernel_haven/variability_model/VariabilityVariable.java:179-181 | the mapping gains number -> name and keeps every other entry |
| VariabilityVariables.VariabilityVariable.Equals | src/net/ssehub/kernel_haven/variability_model/VariabilityVariable.java:358-376 | equal exactly when name, type, number and locations agree, a null list equal only to a null list |
| VariabilityVariables.VariabilityVariable.HashCode | src/net/ssehub/kernel_haven/variability_model/VariabilityVariable.java:353-355 | the hash is a 32-bit int |
| VariabilityVariables.VariabilityVariable.AddLocations | src/net/ssehub/kernel_haven/variability_model/VariabilityVariable.java:299-307 | succeeds exactly when every element reads as a location; then the locations are added in order; on failure those read before it were added |
| VariabilityVariables.VariabilityVariable.SetJsonData | src/net/ssehub/kernel_haven/variability_model/VariabilityVariable.java:292-342 | succeeds exactly when ReadJson does and then sets the number, adds the locations and replaces each present reference set; every failure is a FormatException and leaves the fields as far as the reading got |
| VariabilityVariables.EqualsSameHash | src/net/ssehub/kernel_haven/variability_model/VariabilityVariable.java:353-376 | equal variables have equal hash codes |
| VariabilityVariables.NameListRoundTrip | src/net/ssehub/kernel_haven/variability_model/VariabilityVariable.java:259-324 | a written reference list resolves back to the same set when every name is known |
| VariabilityVariables.NamesKnown | src/net/ssehub/kernel_haven/variability_model/VariabilityVariable.java:311-320 | every written name of a resolvable set is known |
| VariabilityVariables.ResolvedIsSet | src/net/ssehub/kernel_haven/variability_model/VariabilityVariable.java:310-323 | resolving the written names gives back exactly the set |
| VariabilityVariables.ReadEntries | src/net/ssehub/kernel_haven/variability_model/VariabilityVariable.java:292-342 | an object holding what toJson writes reads back to the values written |
| VariabilityVariables.LocationsRead | src/net/ssehub/kernel_haven/variability_model/VariabilityVariable.java:299-307 | the written sourceLocations entry reads back to the locations |
| VariabilityVariables.ReferencesRead | src/net/ssehub/kernel_haven/variability_model/VariabilityVariable.java:309-341 | a written reference entry reads back to its set |
| VariabilityVariables.JsonRoundTrip | src/net/ssehub/kernel_haven/variability_model/VariabilityVariable.java:243-342 | setJsonData reads back the number, the locations and both reference sets from toJson's output, given every referenced variable is known by name |
| VariabilityVariables.JsonRestoresData | src/net/ssehub/kernel_haven/variability_model/VariabilityVariable.java:132-139 | replaying a valid variable's locations on a new variable restores its list |
| VariableSerialization.LocationText | src/net/ssehub/kernel_haven/variability_model/VariabilityVariableSerializer.java:60-61 | a location is written as its path, a '>' right after it, then the line |
| VariableSerialization.LocationTexts | src/net/ssehub/kernel_haven/variability_model/VariabilityVariableSerializer.java:59-65 | the text of each location, in order |
| VariableSerialization.Serialized | src/net/ssehub/kernel_haven/variability_model/VariabilityVariableSerializer.java:48-72 | serializeImpl always produces DEFAULT_SIZE (four) fields |
| VariableSerialization.SerializeImpl | src/net/ssehub/kernel_haven/variability_model/VariabilityVariableSerializer.java:48-72 | the method builds exactly the fields name, type, number and locations text |
| VariableSerialization.LocationsField | src/net/ssehub/kernel_haven/variability_model/VariabilityVariableSerializer.java:55-68 | the loop writes the location texts separated by '\|', or "null" for a null list |
| VariableSerialization.FieldStep | src/net/ssehub/kernel_haven/variability_model/VariabilityVariableSerializer.java:59-65 | each iteration appends one location, followed by '\|' unless it is the last |
| VariableSerialization.CheckLength | src/net/ssehub/kernel_haven/variability_model/VariabilityVariableSerializer.java:130-134 | anything but four fields is a FormatException, exactly four pass |
| VariableSerialization.ParseLocation | src/net/ssehub/kernel_haven/variability_model/VariabilityVariableSerializer.java:107-111 | a piece reads back exactly when it splits at '>' into two parts and the second is an int; a FormatException otherwise |
| VariableSerialization.LocationsFromText | src/net/ssehub/kernel_haven/variability_model/VariabilityVariableSerializer.java:102-113 | "null" leaves the list null; any failure is a FormatException |
| VariableSerialization.DeserializedImpl | src/net/ssehub/kernel_haven/variability_model/VariabilityVariableSerializer.java:98-119 | a success takes name and type from the first two fields and the number from the third; every failure (bad int, bad location) is a FormatException |
| VariableSerialization.Deserialized | src/net/ssehub/kernel_haven/variability_model/VariabilityVariableSerializer.java:83-86 | a wrong field count fails before anything is parsed; every failure is a FormatException |
| VariableSerialization.Deserialize | src/net/ssehub/kernel_haven/variability_model/VariabilityVariableSerializer.java:83-119 | the method builds a new valid variable holding exactly the deserialized data, with no reference sets, or fails as deserialize specifies |
| VariableSerialization.NumberChars | src/net/ssehub/kernel_haven/variability_model/VariabilityVariableSerializer.java:53 | a printed int holds only digits and '-', so never a '>' or '\|' |
| VariableSerialization.LocationRoundTrip | src/net/ssehub/kernel_haven/variability_model/VariabilityVariableSerializer.java:60-111 | a location whose path has no '>' reads back as itself |
| VariableSerialization.TextsSplit | src/net/ssehub/kernel_haven/variability_model/VariabilityVariableSerializer.java:59-105 | joined location texts split back at '\|' into the same texts, when no path holds '\|' |
| VariableSerialization.JoinStartsWithFirst | src/net/ssehub/kernel_haven/variability_model/VariabilityVariableSerializer.java:59-65 | a non-empty join begins with its first part |
| VariableSerialization.LocationsNotNull | src/net/ssehub/kernel_haven/variability_model/VariabilityVariableSerializer.java:58-68 | a non-empty location list is never written as "null" |
| VariableSerialization.RoundTrip | src/net/ssehub/kernel_haven/variability_model/VariabilityVariableSerializer.java:35-119 | deserialize(serialize(v)) restores name, type, DIMACS number and locations, for paths free of '>' and '\|' |
| VariableSerialization.ArrowInPathFails | src/net/ssehub/kernel_haven/variability_model/VariabilityVariableSerializer.java:107-110 | a location whose path holds '>' splits into three or more parts and is rejected |
| VariableSerialization.ArrowInPathBreaksRoundTrip | src/net/ssehub/kernel_haven/variability_model/VariabilityVariableSerializer.java:35-119 | a variable whose one location has such a path is not read back |
| VariableSerialization.LoneBarNoLocations | src/net/ssehub/kernel_haven/variability_model/VariabilityVariableSerializer.java:104-113 | a locations field of a lone '\|' splits into no pieces and leaves the list null |
| DimacsExtraction.ParseLine | src/net/ssehub/kernel_haven/variability_model/DIMACSVariabilityModelExtractor.java:78-103 | a variable is made exactly when the line has more than two tokens, and it is named by token 2 and has no locations |
| DimacsExtraction.Parsed | src/net/ssehub/kernel_haven/variability_model/DIMACSVariabilityModelExtractor.java:52-55 | only a line starting with "c " can yield a variable |
| DimacsExtraction.RunOnLines | src/net/ssehub/kernel_haven/variability_model/DIMACSVariabilityModelExtractor.java:48-69 | the map holds one fresh valid variable per extracted name, with the data of the last line naming it, and the descriptor is BOOLEAN / DIMACS |
| DimacsExtraction.ExtractedNames | src/net/ssehub/kernel_haven/variability_model/DIMACSVariabilityModelExtractor.java:51-56 | a name is in the map exactly when some comment line yields a variable of that name |
| DimacsExtraction.PrefixNamed | src/net/ssehub/kernel_haven/variability_model/DIMACSVariabilityModelExtractor.java:51-56 | a name not put by the last line is put by some line exactly when some earlier line puts it |
| DimacsExtraction.SameLineNamed | src/net/ssehub/kernel_haven/variability_model/DIMACSVariabilityModelExtractor.java:51-56 | whether a line names a variable does not depend on the lines after it |
| DimacsExtraction.LastLineWins | src/net/ssehub/kernel_haven/variability_model/DIMACSVariabilityModelExtractor.java:56 | the variable kept for a name is the one from the last line with that name |
| DimacsExtraction.LaterUnnamed | src/net/ssehub/kernel_haven/variability_model/DIMACSVariabilityModelExtractor.java:56 | a line that no later line overrides keeps that property in the prefix without the last line |
| DimacsExtraction.NonCommentIgnored | src/net/ssehub/kernel_haven/variability_model/DIMACSVariabilityModelExtractor.java:52 | a line not starting with "c " leaves the map unchanged |
| DimacsExtraction.ParsedFields | src/net/ssehub/kernel_haven/variability_model/DIMACSVariabilityModelExtractor.java:83-99 | the number is token 1 when it is an int and -1 otherwise; the type is token 3, or "unknown" with only three tokens |
| PipelineConfiguration.Scan | src/net/ssehub/kernel_haven/analysis/ConfiguredPipelineAnalysis.java:118-139 | the loop state after i characters: the last top-level comma lies before position i |
| PipelineConfiguration.GetParameterParts | src/net/ssehub/kernel_haven/analysis/ConfiguredPipelineAnalysis.java:115-143 | the loop returns exactly the parameter parts of the text |
| PipelineConfiguration.ScanMeaning | src/net/ssehub/kernel_haven/analysis/ConfiguredPipelineAnalysis.java:118-139 | at every step, the parts so far and the open part join to the text read, one part completed per comma outside brackets, and depth counts the open brackets |
| PipelineConfiguration.ScanStep | src/net/ssehub/kernel_haven/analysis/ConfiguredPipelineAnalysis.java:121-139 | one character keeps that meaning |
| PipelineConfiguration.ScanComma | src/net/ssehub/kernel_haven/analysis/ConfiguredPipelineAnalysis.java:130-134 | a comma at depth 0 completes the open part and keeps the meaning |
| PipelineConfiguration.ScanOther | src/net/ssehub/kernel_haven/analysis/ConfiguredPipelineAnalysis.java:124-137 | a bracket or any other character only moves the depth, keeping the meaning |
| PipelineConfiguration.PartsJoin | src/net/ssehub/kernel_haven/analysis/ConfiguredPipelineAnalysis.java:115-143 | joining the parts with "," gives back the parameter text |
| PipelineConfiguration.PartsCount | src/net/ssehub/kernel_haven/analysis/ConfiguredPipelineAnalysis.java:115-143 | there is one part more than there are commas outside brackets |
| PipelineConfiguration.PartsShorter | src/net/ssehub/kernel_haven/analysis/ConfiguredPipelineAnalysis.java:132-140 | every part is a piece of the text, so no longer than it (which makes the recursion of createComponent terminate) |
| PipelineConfiguration.OnePart | src/net/ssehub/kernel_haven/analysis/ConfiguredPipelineAnalysis.java:115-143 | a text without a top-level comma is a single parameter |
| PipelineConfiguration.Input | src/net/ssehub/kernel_haven/analysis/ConfiguredPipelineAnalysis.java:75-83 | the three input names stand for extractor inputs, never a class instance |
| PipelineConfiguration.Brackets | src/net/ssehub/kernel_haven/analysis/ConfiguredPipelineAnalysis.java:49-64 | on success the parameter text is shorter than the configuration |
| PipelineConfiguration.CreateAll | src/net/ssehub/kernel_haven/analysis/ConfiguredPipelineAnalysis.java:66-72 | on success there is one component per parameter part |
| PipelineConfiguration.BracketsRejected | src/net/ssehub/kernel_haven/analysis/ConfiguredPipelineAnalysis.java:51-59 | a configuration is rejected exactly when it has no '(' or its last character is not ')', with a SetUpException |
| PipelineConfiguration.BracketsOf | src/net/ssehub/kernel_haven/analysis/ConfiguredPipelineAnalysis.java:61-64 | the class name is the trimmed text before the first '(' and the parameters the trimmed text up to the final ')' |
| PipelineConfiguration.NoParameters | src/net/ssehub/kernel_haven/analysis/ConfiguredPipelineAnalysis.java:48-107 | "name()" gives the extractor input for cmComponent, bmComponent and vmComponent, otherwise an instance of the class with no parameters |
| PipelineConfiguration.CreateTrimmed | src/net/ssehub/kernel_haven/analysis/ConfiguredPipelineAnalysis.java:48-59 | a bracket error of the trimmed text is createComponent's result; otherwise the named component is built |
| PipelineConfiguration.ParameterCount | src/net/ssehub/kernel_haven/analysis/ConfiguredPipelineAnalysis.java:66-72 | an instance has one parameter component per top-level comma plus one, or none for an empty parameter text |
| TableSuffix.GetSuffix | src/net/ssehub/kernel_haven/util/io/TableCollectionReaderFactory.java:99-117 | a name with no '.' or ending in '.' is an IOException; otherwise one or two suffixes, the first the non-empty dot-free text after the last '.', a second exactly when another '.' comes before it |
| TableSuffix.SecondSuffix | src/net/ssehub/kernel_haven/util/io/TableCollectionReaderFactory.java:110-114 | the second suffix is a tail of the name, ends with the first suffix and holds exactly one '.' |
| TableSuffix.SuffixOf | src/net/ssehub/kernel_haven/util/io/TableCollectionReaderFactory.java:99-117 | for stem.extension the extension is the first suffix, and a second exists exactly when the stem holds a '.' |
| SyntaxElements.Padded | src/net/ssehub/kernel_haven/code_model/simple_ast/SyntaxElement.java:84-93 | after n plain adds to pre-set relations rel, there are max(n, \|rel\|) relations: rel's where set, "" for the rest |
| SyntaxElements.PaddedStep | src/net/ssehub/kernel_haven/code_model/simple_ast/SyntaxElement.java:88-92 | one more plain add pads with "" exactly when no pre-set relation is waiting |
| SyntaxElements.FirstWithRelation | src/net/ssehub/kernel_haven/code_model/simple_ast/SyntaxElement.java:71-76 | the loop index: the first position holding the relation, or the end when none does |
| SyntaxElements.FirstWithRelationIs | src/net/ssehub/kernel_haven/code_model/simple_ast/SyntaxElement.java:71-76 | any index with those two properties is the loop's index |
| SyntaxElements.SyntaxElement.constructor | src/net/ssehub/kernel_haven/code_model/simple_ast/SyntaxElement.java:54-62 | a new element has no nested elements, no relations, unknown file and lines, and the given conditions and type |
| SyntaxElements.SyntaxElement.AddNestedElement | src/net/ssehub/kernel_haven/code_model/simple_ast/SyntaxElement.java:84-93 | the element is appended; a relation "" is appended only when relations were not already ahead of the children; nothing else changes |
| SyntaxElements.SyntaxElement.AddNestedElementWithRelation | src/net/ssehub/kernel_haven/code_model/simple_ast/SyntaxElement.java:101-104 | the element and the relation are appended together |
| SyntaxElements.SyntaxElement.SetDeserializedRelations | src/net/ssehub/kernel_haven/code_model/simple_ast/SyntaxElement.java:134-136 | the relations are replaced by the given list, picked up by later adds in order |
| SyntaxElements.SyntaxElement.GetRelation | src/net/ssehub/kernel_haven/code_model/simple_ast/SyntaxElement.java:123-125 | the relation at index, or IndexOutOfBoundsException exactly when index is out of range |
| SyntaxElements.SyntaxElement.GetNestedElement | src/net/ssehub/kernel_haven/code_model/simple_ast/SyntaxElement.java:70-78 | null exactly when no child has the relation; otherwise the child at the first position holding it |
| SyntaxElementCsv.ReadType | src/net/ssehub/kernel_haven/code_model/simple_ast/SyntaxElementCsvUtil.java:109-122 | a type text fails with FormatException exactly when it has neither prefix and is no known type name; a read type is written back as the same text |
| SyntaxElementCsv.TypeRoundTrip | src/net/ssehub/kernel_haven/code_model/simple_ast/SyntaxElementCsvUtil.java:109-122 | every type that elementToCsv can write reads back as itself |
| SyntaxElementCsv.ReadFormula | src/net/ssehub/kernel_haven/code_model/simple_ast/SyntaxElementCsvUtil.java:225-243 | without a cache, a formula reads exactly when the parser accepts it, and a parse error becomes a FormatException |
| SyntaxElementCsv.ReadCondition | src/net/ssehub/kernel_haven/code_model/simple_ast/SyntaxElementCsvUtil.java:101-106 | the text "null" means no condition |
| SyntaxElementCsv.IntField | src/net/ssehub/kernel_haven/code_model/simple_ast/SyntaxElementCsvUtil.java:81-88 | a field reads exactly when it is an int, else FormatException |
| SyntaxElementCsv.ReadFormulaCached | src/net/ssehub/kernel_haven/code_model/simple_ast/SyntaxElementCsvUtil.java:225-243 | with a cache, the cache only grows and afterwards holds the text |
| SyntaxElementCsv.CachedReadAgrees | src/net/ssehub/kernel_haven/code_model/simple_ast/SyntaxElementCsvUtil.java:225-243 | with a cache of earlier parses, the read succeeds exactly when parsing does, gives the parser's formula, and the cache stays one of parses |
| SyntaxElementCsv.HeaderCsv | src/net/ssehub/kernel_haven/code_model/simple_ast/SyntaxElementCsvUtil.java:181-207 | the fixed part is exactly seven fields |
| SyntaxElementCsv.Csv | src/net/ssehub/kernel_haven/code_model/simple_ast/SyntaxElementCsvUtil.java:163-213 | elementToCsv gives seven fields followed by exactly the relations |
| SyntaxElementCsv.HeaderFromCsv | src/net/ssehub/kernel_haven/code_model/simple_ast/SyntaxElementCsvUtil.java:81-129 | every failure reading the fixed fields (bad int, bad formula, unknown type) is a FormatException |
| SyntaxElementCsv.RelationsFromCsv | src/net/ssehub/kernel_haven/code_model/simple_ast/SyntaxElementCsvUtil.java:124-133 | a negative count is IllegalArgumentException, a count past the fields ArrayIndexOutOfBoundsException; otherwise exactly the count fields after the seventh |
| SyntaxElementCsv.ElementFromCsv | src/net/ssehub/kernel_haven/code_model/simple_ast/SyntaxElementCsvUtil.java:72-142 | fewer than seven fields is a FormatException; a success carries the parsed lines, the path, a condition absent exactly for "null", the written type and relations taken from the fields |
| SyntaxElementCsv.ElementToCsv | src/net/ssehub/kernel_haven/code_model/simple_ast/SyntaxElementCsvUtil.java:163-213 | the method writes exactly the fields Csv gives for the element's header and relations |
| SyntaxElementCsv.ReadRelations | src/net/ssehub/kernel_haven/code_model/simple_ast/SyntaxElementCsvUtil.java:130-133 | the loop reads exactly what RelationsFromCsv gives, with the same exceptions |
| SyntaxElementCsv.CsvToElement | src/net/ssehub/kernel_haven/code_model/simple_ast/SyntaxElementCsvUtil.java:72-142 | the method fails exactly when ElementFromCsv does, with its exception; otherwise a new valid element with no children holding that data |
| SyntaxElementCsv.CsvRoundTrip | src/net/ssehub/kernel_haven/code_model/simple_ast/SyntaxElementCsvUtil.java:72-213 | csvToElement reads back what elementToCsv wrote |
| SyntaxElementCsv.HeaderRoundTrip | src/net/ssehub/kernel_haven/code_model/simple_ast/SyntaxElementCsvUtil.java:81-129 | the seven fixed fields read back to the header and the relation count |
| SyntaxElementCsv.HeaderFromCsvPrefix | src/net/ssehub/kernel_haven/code_model/simple_ast/SyntaxElementCsvUtil.java:76-129 | only the first seven fields decide the header |
| SyntaxElementCsv.NullVariableConditionLost | src/net/ssehub/kernel_haven/code_model/simple_ast/SyntaxElementCsvUtil.java:101-106 | a condition that is the variable "null" is written as "null" and read back as no condition |
| CodeModelCaching.Dotted | src/net/ssehub/kernel_haven/code_model/CodeModelCache.java:72 | the path with exactly the separators replaced by '.', every other character in place |
| CodeModelCaching.CacheFileNameShape | src/net/ssehub/kernel_haven/code_model/CodeModelCache.java:71-85 | a cache file name holds no separator, keeps the path's other characters in place, and the compressed name is the plain one plus ".zip", so the two differ |
| CodeModelCaching.CacheFileNameInjective | src/net/ssehub/kernel_haven/code_model/CodeModelCache.java:71-85 | paths without '.' get distinct cache files |
| CodeModelCaching.CacheFileNamesCollide | src/net/ssehub/kernel_haven/code_model/CodeModelCache.java:71-74 | "a/b.c" and "a.b.c" share one cache file |
| CodeModelCaching.WriteLine | src/net/ssehub/kernel_haven/code_model/CodeModelCache.java:144-150 | the line written for an element is the class name, the level and each CSV field, separated by ';' |
| CodeModelCaching.AppendParts | src/net/ssehub/kernel_haven/code_model/CodeModelCache.java:147-149 | the loop appends each part after a delimiter, giving all parts joined by ';' |
| CodeModelCaching.Lines | src/net/ssehub/kernel_haven/code_model/CodeModelCache.java:116-118 | write produces one line per element of the forest, in depth-first order |
| CodeModelCaching.ParentsOf | src/net/ssehub/kernel_haven/code_model/CodeModelCache.java:152-154 | one parent position per element in depth-first order |
| CodeModelCaching.ParentsOfUnfolds | src/net/ssehub/kernel_haven/code_model/CodeModelCache.java:152-154 | a tree's element is nested in the given parent and its children in it |
| CodeModelCaching.DatasStitch | src/net/ssehub/kernel_haven/code_model/CodeModelCache.java:152-154 | the elements of a forest are those of its first tree followed by those of the rest |
| CodeModelCaching.ParentsStitch | src/net/ssehub/kernel_haven/code_model/CodeModelCache.java:152-154 | the parents of a forest are those of its first tree followed by those of the rest |
| CodeModelCaching.ReadFindsWritten | src/net/ssehub/kernel_haven/code_model/CodeModelCache.java:94-134 | whatever was cached before, and compressed or not, read finds exactly the lines last written for the path |
| CodeModelCaching.ReadCacheLine | src/net/ssehub/kernel_haven/code_model/CodeModelCache.java:242-254 | reading a line fails only with ArrayIndexOutOfBoundsException (fewer than two fields) or FormatException (bad level, unknown class, rejected fields) |
| CodeModelCaching.ReadParts | src/net/ssehub/kernel_haven/code_model/CodeModelCache.java:246-254 | reading the fields fails only with those two exceptions |
| CodeModelCaching.LineParts | src/net/ssehub/kernel_haven/code_model/CodeModelCache.java:145-149 | a written line has two fields more than the element's CSV |
| CodeModelCaching.IntTextPlain | src/net/ssehub/kernel_haven/code_model/CodeModelCache.java:145 | a printed level never holds the delimiter |
| CodeModelCaching.ClassNamePlain | src/net/ssehub/kernel_haven/code_model/CodeModelCache.java:145 | the class name never holds the delimiter |
| CodeModelCaching.PartsPlain | src/net/ssehub/kernel_haven/code_model/CodeModelCache.java:145-149 | when no CSV field holds ';', no field of the line does |
| CodeModelCaching.FieldsOfLine | src/net/ssehub/kernel_haven/code_model/CodeModelCache.java:244 | splitting a written line at ';' gives its fields back, when the split keeps them |
| CodeModelCaching.PartsRoundTrip | src/net/ssehub/kernel_haven/code_model/CodeModelCache.java:246-254 | the fields of a written line read back to its level and element |
| CodeModelCaching.LineRoundTrip | src/net/ssehub/kernel_haven/code_model/CodeModelCache.java:144-150 | readLine reads back the level and element of the line serializeElement wrote |
| CodeModelCaching.EmptyLastRelationUnreadable | src/net/ssehub/kernel_haven/code_model/CodeModelCache.java:244 | as written: an element whose last relation is "" writes a line that String.split shortens, so reading it fails; a split keeping trailing fields reads it back |
| CodeModelCaching.DroppedEmptyRelation | src/net/ssehub/kernel_haven/code_model/CodeModelCache.java:244 | String.split loses the trailing empty relation field |
| CodeModelCaching.ShortLineFails | src/net/ssehub/kernel_haven/code_model/CodeModelCache.java:252-254 | without that field the relation loop runs past the fields and the line is rejected |
| CodeModelReading.Kept | src/net/ssehub/kernel_haven/code_model/CodeModelCache.java:256-258 | the pops leave the first min(level, size) entries of the stack |
| CodeModelReading.Attach | src/net/ssehub/kernel_haven/code_model/CodeModelCache.java:256-266 | placing fails exactly for a negative level (pop on the empty stack) or a positive level on an empty stack (peek), with EmptyStackException |
| CodeModelReading.AttachWellFormed | src/net/ssehub/kernel_haven/code_model/CodeModelCache.java:256-266 | placing an element keeps every parent earlier than its child and the stack pointing at read elements |
| CodeModelReading.ReadPrefixFrom | src/net/ssehub/kernel_haven/code_model/CodeModelCache.java:198-201 | after the first i lines the reader continues from their state, or has already stopped at their first exception |
| CodeModelReading.ReadPrefixStep | src/net/ssehub/kernel_haven/code_model/CodeModelCache.java:198-201 | line i either stops reading with its exception or leads to the state Attach gives |
| CodeModelReading.ReadPrefixDone | src/net/ssehub/kernel_haven/code_model/CodeModelCache.java:198-201 | once every line is read, reading ends in that state |
| CodeModelReading.ReadFromWellFormed | src/net/ssehub/kernel_haven/code_model/CodeModelCache.java:198-201 | reading keeps the state well formed |
| CodeModelReading.Parses | src/net/ssehub/kernel_haven/code_model/CodeModelCache.java:198-199 | one reading per line |
| CodeModelReading.ReadFromReplays | src/net/ssehub/kernel_haven/code_model/CodeModelCache.java:198-201 | reading the lines is replaying each line's reading in order |
| CodeModelReading.ParsesAppend | src/net/ssehub/kernel_haven/code_model/CodeModelCache.java:198-199 | the readings of two blocks of lines are those of each block |
| CodeModelReading.ReplayAppend | src/net/ssehub/kernel_haven/code_model/CodeModelCache.java:198-201 | replaying two blocks is replaying the second from where the first ends |
| CodeModelReading.Entries | src/net/ssehub/kernel_haven/code_model/CodeModelCache.java:116-118 | one entry per element written, in depth-first order |
| CodeModelReading.ParseOneLine | src/net/ssehub/kernel_haven/code_model/CodeModelCache.java:242-254 | a fitting line reads back as its level and element |
| CodeModelReading.LinesParse | src/net/ssehub/kernel_haven/code_model/CodeModelCache.java:116-154 | every line write writes for a readable forest reads back as its element and level |
| CodeModelReading.ReplayOne | src/net/ssehub/kernel_haven/code_model/CodeModelCache.java:256-266 | an entry at a level no deeper than the stack is placed by pop, nest and push |
| CodeModelReading.ReplayForest | src/net/ssehub/kernel_haven/code_model/CodeModelCache.java:256-266 | replaying a written forest appends its elements depth-first, each nested in its parent, and leaves the stack below the level as it was |
| CodeModelReading.ReplaySplit | src/net/ssehub/kernel_haven/code_model/CodeModelCache.java:152-154 | an element's line, then its descendants', then the rest replay in that order |
| CodeModelReading.StackStep | src/net/ssehub/kernel_haven/code_model/CodeModelCache.java:256-266 | after an element's descendants, the stack below its level is as before it and the element is their parent |
| CodeModelReading.ReadWritten | src/net/ssehub/kernel_haven/code_model/CodeModelCache.java:94-267 | reading what write wrote gives back the elements in depth-first order, each nested in the element it was nested in |
| CodeModelReading.SourceFile.constructor | src/net/ssehub/kernel_haven/code_model/CodeModelCache.java:190 | a new source file for the path with no elements |
| CodeModelReading.SourceFile.AddElement | src/net/ssehub/kernel_haven/code_model/CodeModelCache.java:261 | one more top-level element, appended |
| CodeModelReading.Pick | src/net/ssehub/kernel_haven/code_model/CodeModelCache.java:195 | the elements at the given positions |
| CodeModelReading.ChildrenOf | src/net/ssehub/kernel_haven/code_model/CodeModelCache.java:260-264 | the positions nested in the element at k, each truly nested there, in reading order |
| CodeModelReading.ChildrenOfComplete | src/net/ssehub/kernel_haven/code_model/CodeModelCache.java:260-264 | every element nested in k is among its children |
| CodeModelReading.ChildrenOfAppend | src/net/ssehub/kernel_haven/code_model/CodeModelCache.java:260-264 | a new element adds itself to the children of its parent only |
| CodeModelReading.NoChildrenYet | src/net/ssehub/kernel_haven/code_model/CodeModelCache.java:260-266 | the element read last has nothing nested in it yet |
| CodeModelReading.Views | src/net/ssehub/kernel_haven/code_model/CodeModelCache.java:254-266 | one view per created element |
| CodeModelReading.MirrorsValid | src/net/ssehub/kernel_haven/code_model/CodeModelCache.java:254-266 | the created elements are valid: each has a relation for every nested element |
| CodeModelReading.CreateFromLine | src/net/ssehub/kernel_haven/code_model/CodeModelCache.java:244-254 | the method makes a new element with no children carrying exactly what ReadCacheLine reads, or raises its exception |
| CodeModelReading.Nest | src/net/ssehub/kernel_haven/code_model/CodeModelCache.java:256-266 | the stack is popped to the level, the element is added to the file (level 0) or to the stack top, and pushed; EmptyStackException before any change for a negative level or a peek on an empty stack |
| CodeModelReading.ReadStepIs | src/net/ssehub/kernel_haven/code_model/CodeModelCache.java:242-266 | one line is its reading followed by its placing |
| CodeModelReading.PickExtend | src/net/ssehub/kernel_haven/code_model/CodeModelCache.java:266 | pushing a new element picks it at the new position and leaves the rest |
| CodeModelReading.PickKept | src/net/ssehub/kernel_haven/code_model/CodeModelCache.java:256-258 | popping the positions and popping the elements agree |
| CodeModelReading.MirrorsStep | src/net/ssehub/kernel_haven/code_model/CodeModelCache.java:256-266 | one line read keeps the objects mirroring the state read |
| CodeModelReading.CreateAt | src/net/ssehub/kernel_haven/code_model/CodeModelCache.java:242-254 | line i's exception is the one reading stops with; otherwise its element carries the line's data and placing it gives the state after line i |
| CodeModelReading.Read | src/net/ssehub/kernel_haven/code_model/CodeModelCache.java:166-230 | a missing cache file gives null; otherwise a new source file for the path whose elements mirror what reading the lines gives, or the first exception of that reading |
| CodeModelReading.ReadAt | src/net/ssehub/kernel_haven/code_model/CodeModelCache.java:198-200 | one line: its element is created and nested as the reader over positions says, or its exception is raised |
| CodeModelReading.ReadLines | src/net/ssehub/kernel_haven/code_model/CodeModelCache.java:188-201 | the loop gives a new source file whose elements mirror the reading of the lines, or its first exception |

## Left out

- Concurrency, the clock and logging. The warning `parseLine` logs for a bad DIMACS number is not modelled.
- File, zip and reader I/O. Each input stream is given as its text or its lines:
  - the DIMACS file's lines;
  - the cache directory, as a map from cache file names to lines;
  - the properties of an included file, through the `load` parameter of `Configurations.LoadProperties`;
  - the files that exist, as part of the configuration's context.
- `IOException`s raised by streams are not modelled.
- Reflection:
  - `Class.forName` plus a constructor lookup in `createComponent`;
  - `Class.forName` plus `createFromCsv` in the cache reader;
  - `SyntaxElementTypes.getByName`.
  Known class and type names are parameters or constants. Only `SyntaxElement` is a known code element class.
- PipelineConfiguration.Named: the reflective creation of a component class never fails. A class that does not exist or has no matching constructor, which the source turns into a `SetUpException`, is not modelled.
- Floating point. A JSON double is kept as the text handed to `Double.parseDouble`. The parsing of a double in `NumberUtils.convertToNumber` is a parameter (`parseDouble`).
- JsonGrammar.EscapeBody: a `\u` escape that denotes a UTF-16 surrogate (`\uD800` to `\uDFFF`) is rejected, although the source accepts any four hex digits. This applies to lone surrogates and to pairs alike. A Dafny `char` here stands for one Java `char`, and a Dafny `char` cannot hold a surrogate code unit. Combining a pair into one character would make the model's strings shorter than Java's.
- JsonParsing.JsonParser.ReadEscape: the same restriction as `JsonGrammar.EscapeBody`.
- JSON containers hold their nested elements as values. Aliasing, where one nested `JsonObject` is reachable from two places and is mutated through one of them, is not captured.
- `toString` is not modelled for `SyntaxElement`, `VariabilityVariable`, `BuildModel` and `SourceLocation`. This includes the "..." shortening of conditions longer than 64 characters in `SyntaxElement.toString`.
- HierarchicalVariable's own `toJson`/`setJsonData` are not modelled. The JSON form of the plain variable is.
- Formulas.Precedence: `Conjunction.java` is not part of this model. Its precedence (1, like `Disjunction`) and its parenthesising rule follow `Disjunction` and the formula tests.
- CsvReading.CsvReader.ReadLine: the line counter behind `getLineNumber` is not kept.
- Configurations.Configuration.GetUnusedKeys: registered settings are visited in registration order, whereas the source iterates a `HashMap` in an unspecified order. The result is a set either way.
- Path normalisation by `java.io.File` is not modelled. This affects:
  - `FileValue` in the configuration;
  - the `File` of a `SourceLocation`;
  - `new File(parts[0])` in the variable serializer;
  - `getPath()` in `elementToCsv`.
  Paths are compared as plain strings, with '/' as the separator.
- SyntaxElementCsv.ReadFormulaCached: the formula and file-name caches share objects (equal strings map to one object). With values instead of objects, only the contents of the cache are stated.
- CodeModelReading.Read: the stack of open elements is a returned sequence of element references, not a mutated `java.util.Stack` object.
- CodeModelCaching.Lines: the writer walks a value tree of the elements rather than the element objects.
- CodeModelCaching.LineRoundTrip: the round trip assumes that no CSV field holds ';' or a line break. `serializeElement` does not escape them, so such a field breaks the line apart.
- SyntaxElements.SyntaxElement.SetDeserializedRelations: the method requires that no nested element has been added yet, as its one caller `csvToElement` guarantees. A later call, which could leave fewer relations than nested elements, is not modelled.
- `ArrayList` capacity hints (`new ArrayList<>(n)`) matter only for a negative count, where they raise `IllegalArgumentException`. That case is modelled in `RelationsFromCsv`. Capacity plays no other part.
- VariabilityVariables.NameList: two distinct variables with the same name in one reference set are written once, not twice. The set of names written is the same.
- HierarchicalVariables.NullNamedParentLost: this is behaviour, not a defect. A parent whose name is "null" cannot be told apart from no parent in the list serialization.
- SyntaxElementCsv.NullVariableConditionLost: likewise, a condition that is the variable "null" is written as no condition.
- VariableSerialization.ArrowInPathBreaksRoundTrip: likewise, a path containing '>' or '\|' cannot be read back.

## Findings

| source | as written | input that shows it | evidently intended | confidence | as-written member | corrected member |
|---|---|---|---|---|---|---|
| src/net/ssehub/kernel_haven/util/cpp/parser/CppParser.java:299-303 | the resolver keeps the first operator of strictly lowest precedence, so a list is split at its leftmost lowest operator | `A - B + C` resolves to A - (B + C) | left-associative grouping, (A - B) + C, as the parser tests expect: split at the last lowest operator | not executed | CppResolution.GroupsToTheRight | CppResolution.GroupsToTheLeft |
| src/net/ssehub/kernel_haven/util/cpp/NumberUtils.java:24-31 | after accepting a leading '-', the loop still runs the digit test on it | `isInteger("-5", 10)` is false, so "-5" goes through the double branch | the '-' is skipped, and "-5" is an integer | not executed | NumberUtils.AsWrittenRejectsNegatives | NumberUtils.IsInteger |
| src/net/ssehub/kernel_haven/util/logic/parser/CStyleBooleanGrammar.java:57-59 | `str[it + 1]` is read without a bounds check | lexing "A &" raises ArrayIndexOutOfBoundsException instead of ExpressionFormatException | a trailing '&' or '\|' is no operator, and the expression is rejected with ExpressionFormatException | not executed | BooleanGrammar.TrailingAmpersandThrows | BooleanGrammar.GetOperator |
| src/net/ssehub/kernel_haven/util/logic/parser/Parser.java:58-59 | the lexer calls getOperator at the last character | lexing "A &" | as above, at the lexer level | not executed | FormulaLexing.TrailingAmpersandLexed | FormulaLexing.Lex |
| src/net/ssehub/kernel_haven/code_model/CodeModelCache.java:244 | `line.split(";")` drops trailing empty fields | an element whose last nested element has relation "" writes a line ending in ';', and reading that line fails with FormatException | every field is kept (`split(";", -1)`), and the line reads back | not executed | CodeModelCaching.EmptyLastRelationUnreadable | CodeModelCaching.LineRoundTrip |
| src/net/ssehub/kernel_haven/util/cpp/parser/CppOperator.java:22 | INT_MOD's symbol is "&" | the text INT_MOD is printed as, "&", lexes back as BIN_AND rather than INT_MOD | INT_MOD's symbol is "%" | not executed | CppLexing.ModSymbolAsWrittenReadsAsAnd | CppLexing.SymbolLexesBack |
| src/net/ssehub/kernel_haven/util/io/csv/CsvReader.java:247-261 | after a lone '\r' the reader peeks a second time at the next character | "x\r\ry": the empty row ended by the second '\r' fails with IllegalStateException | a lone '\r' ends the (empty) row like '\n' does | not executed | CsvRoundTrip.LoneReturnDocumentFails | CsvRoundTrip.LoneReturnDocumentFixed |
