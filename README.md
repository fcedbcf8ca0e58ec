# cfg: a verified model of the command-line option parser

This project models the core of `cfg`, a header-only C++ library
(`include/cfg.hpp`) that parses command-line arguments in POSIX and GNU style
against a list of declared options. The model covers these parts:

* **Option declarations.** The model covers `option_base`, `option<T>` and
  `option<void>`. A declaration is a spelling `"name"`, `"name,x"` or `"x"`, a
  description, and a value type (none for a flag). It may also carry a default.
  At run time an option also holds its occurrence count (`m_seen`) and its
  current value (`m_value`).
* **Value conversion.** `option_traits<T>::set_value` converts an argument
  into a value. Strings and paths are taken verbatim. Numbers go through a
  parser that is a parameter of the model (`Descriptor.NumberParser`). The
  parser stands for `charconv<T>::from_chars`.
* **The registry.** `config_impl` is the ordered list of option records plus
  the operands. It offers two first-match lookups, one by long name and one by
  short character.
* **The parser.** `config::parse(argc, argv, ignore_unknown, ec)` is a state
  machine over the argument vector. It counts occurrences, stores values,
  and collects operands. It stops at the first error.
* **The queries.** `has`, `count` and `get`.
* **The help column width.** `option_base::width()`.

## Structure

* `wrappers.dfy`: `Option` and `Result`.
* `descriptor.dfy` (module `Descriptor`):
  * the option record and its value and error types;
  * the name/short-name split, the two ways to declare an option, and
    conversion.
* `registry.dfy` (module `Registry`):
  * first-match lookup by long name and by short character;
  * the fact that lookups depend only on declarations.
* `scanner.dfy` (module `Scanner`): the parser as a pure state machine. `Step`
  reads one token, plus the next token when that token is an option's
  argument. `Run` reads tokens until an error is set or none remain.
* `config.dfy` (module `Cfg`): the class `Config`.
  * Its fields are `options: seq<OptionRecord>` and `operands: seq<string>`.
  * `Parse` is a `while` loop over the argument vector, proved equal to
    `Scanner.Run`. One turn of the loop is `ParseNext`, and its body is split
    into one method per branch of the C++ loop body.
    * `ParseToken`, `ParseLong`, `ParseShort` and `ConsumeArgument` are each
      proved equal to the matching function (`Step`, `LongOption`,
      `ShortOptions`, `TakeArgument`).
    * `ScanLong` also states the option it found, its inline argument and
      the new options.
    * `ScanCluster` and `ScanChar` state the new options through
      `Scanner.Cluster`.
  * `GetOption` and `GetOptionByShort` are linear-search loops, proved equal to
    the lookup functions.
  * `Has`, `Count` and `Get` are the queries.
* `scanner_properties.dfy` (module `ScannerProperties`): the properties of the
  parser, stated over `Scanner.Run`. They cover operands, `--`, a lone `-`,
  long options with inline or separate arguments, flags, missing arguments,
  unknown options, short clusters, and occurrence counting.
* `help.dfy` (module `Help`): `width()`, and how it relates to the label that
  the help listing prints.

The model reproduces these behaviours of the code:

* A lone `-` is dropped. It is neither an operand nor an option.
* `--name=` with an empty inline value takes the next token as its argument,
  exactly like `--name`.
* The token after a value-bearing option is taken as its argument even when
  that token starts with `-`.
* A one-character spelling `"x"` keeps `"x"` as its long name as well, so
  `--x` also finds it.
* Occurrence counts and operands accumulate over several calls of `parse`.
* The numeric parser's end position is never checked.
* The stored value is overwritten even when numeric conversion reports an
  error.

The error code is passed in and out, like the C++ `std::error_code&`. A caller
that passes an error already set gets a parse that reads nothing.

### Behaviours of the code worth knowing

* A numeric argument that is only partly consumed is accepted. The end
  position that `from_chars` returns is never checked
  (include/cfg.hpp:536-538), so only the parser's own error code counts.
* A conversion failure is reported as the converter's own `errc`
  (include/cfg.hpp:537-538), not as a configuration error. The model keeps
  that `errc`, as `ConfigError.Conversion(errc)`.
* The next token is taken as the argument whenever the inline value is
  empty. That includes `--name=`, whose `=` is present
  (include/cfg.hpp:391).
* `missing_argument_for_option` is reported both at the end of input and
  when the next token is the empty string (include/cfg.hpp:397-398).
* Strings are byte strings, as `std::string` and `char*` are. Each Dafny
  `char` stands for one byte, and `Parse` requires every token to be a C
  string: bytes 1 to 255. A non-ASCII character is written as its UTF-8
  bytes; `Descriptor.SplitNameOnBytes` shows how this works for `"é"` and
  `"long,é"`.

## Model

| member | source | states |
|---|---|---|
| Descriptor.SplitName | include/cfg.hpp:120-133 | The long name is the spelling itself, or the spelling minus a trailing ",x". A suffix is cut exactly when the spelling is longer than two characters and its second-to-last character is ','. The short name is then that last character. A one-character spelling is both the long and the short name. Every other spelling has no short name. |
| Descriptor.SplitNameOnBytes | include/cfg.hpp:126-131 | On byte strings: the two-byte UTF-8 spelling of "é" names no short option, and "long,é" is kept whole because its second-to-last byte is not ','. "long,x" splits into ("long", 'x'). |
| Descriptor.Declare | include/cfg.hpp:231-235 | A declaration without a default (a flag, or a value-bearing option): the name split comes from SplitName, the count is zero, there is no value and no default, and the record is well-formed. |
| Descriptor.DeclareWithDefault | include/cfg.hpp:237-242 | A declaration with a default: the type is the default's type, it holds the default from the start, and it is marked as having a default. |
| Descriptor.Convert | include/cfg.hpp:528-582 | The value always has the declared type. Strings and paths are verbatim and never fail. A number is the parser's value with the parser's error code. |
| Descriptor.Bump | include/cfg.hpp:357 | One more occurrence. The declaration and the value are unchanged, and well-formedness is kept. |
| Descriptor.SetValue | include/cfg.hpp:244-247 | Only the value changes. It is always overwritten with the converted argument of the declared type, error or not, and the conversion error is returned. Well-formedness is kept. |
| Registry.FindByName | include/cfg.hpp:485-493 | The result is the first position with that long name. None is returned exactly when no record has the name. |
| Registry.FindByShort | include/cfg.hpp:495-503 | The result is the first position with that short character. None is returned exactly when no record has it. |
| Registry.FirstNamedUnique | include/cfg.hpp:487-491 | Any first match by name is the one the lookup returns. |
| Registry.FirstShortUnique | include/cfg.hpp:497-501 | Any first match by short character is the one the lookup returns. |
| Registry.LookupStable | include/cfg.hpp:485-503 | Two record lists with the same declarations resolve every name and every character alike. So counting and storing values cannot change what later tokens resolve to. |
| Scanner.SplitAtEq | include/cfg.hpp:335-342 | The name has no '='. With a '=' present, the text is name + "=" + inline argument. Without one, the name is the whole text and the inline argument is empty. |
| Scanner.Occur | include/cfg.hpp:357-361 | Only option j's count goes up. Declarations are kept and the counts do not decrease. |
| Scanner.Assign | include/cfg.hpp:397-400 | An empty argument leaves the options as they are and sets missing_argument_for_option. Any other argument is stored through SetValue, and its conversion error, if any, becomes the parse error. |
| Scanner.TakeArgument | include/cfg.hpp:391-395 | One token or two are read: the option's token, and the next one when it is taken as the argument. |
| Scanner.TakeArgumentStores | include/cfg.hpp:391-400 | Two tokens are read exactly when the inline argument is empty and another token follows; then the argument is that whole token, otherwise it is the inline one. Operands and mode are unchanged. An empty argument leaves the options alone and sets missing_argument_for_option. Any other argument overwrites only option j's value with its conversion by Convert, and the conversion error, if any, becomes the parse error. |
| Scanner.Cluster | include/cfg.hpp:365-389 | A cluster only counts or stores. A pending argument belongs to a value-bearing option. The only possible error is unknown_option, and only when unknown options are not ignored. |
| Scanner.LongOption | include/cfg.hpp:329-362 | Reads one or two tokens. Operands and mode are untouched, declarations are kept, counts do not decrease, and well-formedness is kept. |
| Scanner.ShortOptions | include/cfg.hpp:363-389 | The same frame facts as LongOption, for a short cluster. |
| Scanner.Step | include/cfg.hpp:302-389 | Reads 1 to 2 tokens. A token becomes an operand on its own, or is not emitted at all. Operand mode, once entered, is never left. Declarations are kept. |
| Scanner.Run | include/cfg.hpp:295-401 | The `for` loop over argv: one Step at a time until no token is left or an error is set. It has no contract of its own; RunKeeps, RunUnfold and RunDone state its facts, and Cfg.Config.Parse is proved equal to it. |
| Scanner.RunKeeps | include/cfg.hpp:295-401 | The whole scan keeps declarations, never lowers a count, keeps well-formedness, and never leaves operand mode. |
| Scanner.RunUnfold | include/cfg.hpp:295 | With a token left and no error, the run is one step followed by the run over the tokens that remain. |
| Scanner.RunDone | include/cfg.hpp:295 | With no token left or an error already set, the run reads nothing and the state is unchanged. |
| Scanner.ShortPending | include/cfg.hpp:382-400 | A cluster that ends at a value-bearing option leaves a well-typed pending option, and the token then goes on to take that option's argument. |
| Scanner.ShortDone | include/cfg.hpp:365-389 | A cluster with nothing pending reads its token alone and keeps the cluster's options and error. |
| Cfg.Config.constructor | include/cfg.hpp:473-477 | The registry holds the declarations in order and has no operands. |
| Cfg.Config.GetOption | include/cfg.hpp:485-493 | The linear search returns the first record with the name, or None exactly when there is none. |
| Cfg.Config.GetOptionByShort | include/cfg.hpp:495-503 | The linear search returns the first record with the short character, or None exactly when there is none. |
| Cfg.Config.Has | include/cfg.hpp:412-416 | True exactly when the first record with the name was seen or has a default. |
| Cfg.Config.Count | include/cfg.hpp:418-422 | The first record's count, or 0 for an undeclared name. |
| Cfg.Config.Get | include/cfg.hpp:424-437 | unknown_option exactly when the name is undeclared. Otherwise the first record's value, or option_not_specified when it holds none. |
| Cfg.Config.Parse | include/cfg.hpp:285-402 | The new options, operands and error code are those of Scanner.Run, started from the old state in option mode over argv[1..] with the caller's error code. Well-formedness is kept. |
| Cfg.Config.ParseNext | include/cfg.hpp:295-401 | One turn of the loop keeps the loop's invariant: the run from the new state over the tokens after the last one read ends where the run from args[i] ends. |
| Cfg.Config.ParseToken | include/cfg.hpp:297-400 | One pass of the loop body equals Scanner.Step from the current state. The returned index says how many tokens were read. |
| Cfg.Config.ParseLong | include/cfg.hpp:329-400 | Reading a long-option token and its argument equals Scanner.LongOption. |
| Cfg.Config.ParseShort | include/cfg.hpp:363-400 | Reading a short-cluster token and its argument equals Scanner.ShortOptions, through the outcome of the cluster loop. |
| Cfg.Config.ScanLong | include/cfg.hpp:329-362 | The long-option branch up to the argument equals Scanner.LongOption. When an argument is expected, the option is the first one whose name is the text before '='. The inline argument is the text after '='. The only change to the options is that option's count going up by one. |
| Cfg.Config.ScanCluster | include/cfg.hpp:363-389 | The inner character loop ends with the options, the error and the pending option and argument that Scanner.Cluster computes for the whole cluster. When nothing is pending, they are the cluster's options and error. |
| Cfg.Config.ScanChar | include/cfg.hpp:369-384 | One character of the cluster. Unknown: the error, or nothing when ignored. Flag: counted, and the cluster goes on. Value-bearing: counted, and the rest of the token is pending as its argument. Each case matches a step of Scanner.Cluster. |
| Cfg.Config.ConsumeArgument | include/cfg.hpp:391-400 | Taking and storing the argument equals Scanner.TakeArgument. |
| Cfg.DefaultAlwaysAvailable | include/cfg.hpp:412-437 | An option with a default is always present and yields a value of its declared type. |
| Cfg.FlagHasNoValue | include/cfg.hpp:412-437 | A flag never yields a value (option_not_specified). It is present exactly when it was counted. |
| ScannerProperties.SplitAtFirstEq | include/cfg.hpp:335-342 | "name=value" with no '=' in name splits into exactly (name, value). |
| ScannerProperties.OperandModeAppendsRest | include/cfg.hpp:317-321 | After "--", every remaining token is appended to the operands in order, and nothing else changes. |
| ScannerProperties.DoubleDashEndsOptions | include/cfg.hpp:310-314 | "--" is consumed without being emitted, and every later token is an operand. |
| ScannerProperties.PlainTokenIsOperand | include/cfg.hpp:304-309 | A token not starting with '-', the empty token included, is an operand even between options. |
| ScannerProperties.LoneDashDropped | include/cfg.hpp:363-388 | A lone "-" changes nothing and is dropped. |
| ScannerProperties.OperandsInOrder | include/cfg.hpp:302-321 | Earlier operands are kept. The new operands are input tokens, in input order. |
| Scanner.StepLong | include/cfg.hpp:329-331 | A token "--..." other than "--" is read as a long option. |
| Scanner.StepShort | include/cfg.hpp:363-367 | A token "-..." whose second character is not '-' is read as a short cluster. |
| ScannerProperties.CountAndAssign | include/cfg.hpp:361-400 | Counting an option and giving it an argument raises its count by one and stores the converted argument. Its declaration and every other option are unchanged. |
| ScannerProperties.LongValuedStep | include/cfg.hpp:335-361 | Reading "--name" or "--name=v" for a value-bearing option counts it, then takes its argument with v as the inline part. |
| ScannerProperties.LongFlagStep | include/cfg.hpp:335-359 | Reading "--name" or "--name=v" for a flag counts it. It sets option_does_not_accept_argument exactly when v is non-empty. |
| ScannerProperties.LongInline | include/cfg.hpp:338-400 | "--name=v" with v non-empty counts the option and stores the converted v. |
| ScannerProperties.LongSeparate | include/cfg.hpp:391-400 | "--name v" counts the option and stores the converted v, even when v starts with '-'. |
| ScannerProperties.LongEmptyInlineTakesNext | include/cfg.hpp:391-395 | "--name= v" also takes the next token v as the argument, exactly like "--name v". |
| ScannerProperties.LongInlineEqualsSeparate | include/cfg.hpp:335-400 | "--name=v" and "--name v" reach the same state. |
| ScannerProperties.LongFlag | include/cfg.hpp:352-359 | "--flag" and "--flag=" each count the flag once and go on. |
| ScannerProperties.LongFlagWithArgument | include/cfg.hpp:352-358 | "--flag=v" with v non-empty still counts the flag, then stops with option_does_not_accept_argument. |
| ScannerProperties.LongMissingArgument | include/cfg.hpp:391-398 | A value-bearing option is counted and the scan stops with missing_argument_for_option in three cases: "--name" as the last token, "--name=" as the last token, and "--name" followed by an empty token. |
| ScannerProperties.UnknownLongOption | include/cfg.hpp:344-350 | An unknown long name stops the scan with unknown_option. When unknown options are ignored, the token is skipped without a trace. |
| ScannerProperties.FirstErrorStops | include/cfg.hpp:295 | When a token sets an error, no later token is read. |
| ScannerProperties.HitsStable | include/cfg.hpp:369 | How many characters of a cluster resolve to an option depends only on the declarations. |
| ScannerProperties.BumpKeepsLookups | include/cfg.hpp:378 | Counting an occurrence keeps the declarations and keeps every known flag known. |
| ScannerProperties.ClusterFlagStep | include/cfg.hpp:367-380 | A cluster starting with a known flag counts it and continues with the remaining characters. |
| ScannerProperties.ClusterCountsFlags | include/cfg.hpp:367-380 | A cluster of known flags raises each flag's count by the number of its characters in the cluster. It raises no error and leaves no pending argument. |
| ScannerProperties.ClusterStopsAtValue | include/cfg.hpp:378-384 | The first value-bearing option ends the cluster. The flags before it are counted, it is counted, and the rest of the token is its argument, with nothing after it looked up. |
| ScannerProperties.ClusterSkipsUnknown | include/cfg.hpp:371-376 | When unknown options are ignored, an unknown character is skipped as if absent. |
| ScannerProperties.ClusterUnknownStops | include/cfg.hpp:371-376 | Otherwise, an unknown character stops the cluster with unknown_option, and the flags before it stay counted. |
| ScannerProperties.ShortStep | include/cfg.hpp:363-389 | Reading "-" + flags + c + a is counting the flags and c, then taking c's argument with a as the inline part. |
| ScannerProperties.ShortInline | include/cfg.hpp:382-400 | "-abcV": a and b are counted, and c is counted and given V. |
| ScannerProperties.ShortSeparate | include/cfg.hpp:387-400 | "-abc V" reaches the state of "-abcV", and V is taken even when it starts with '-'. |
| ScannerProperties.ShortMissingArgument | include/cfg.hpp:391-398 | "-abc" as the last token counts a, b and c, then stops with missing_argument_for_option. |
| ScannerProperties.FlagCountStep | include/cfg.hpp:302-389 | One token that spells the flag counts it: "--name", or "-c" when the flag has a short character c. Long-only flags are covered. Any other token without a leading '-' is an operand. |
| ScannerProperties.FlagCount | include/cfg.hpp:295-389 | A vector of operands and a flag's spellings, in any mix of "--flag" and (when it has a short character) "-f", raises the flag's count by the number of its spellings. It raises no error and stays in option mode. |
| Help.LabelWidth | include/cfg.hpp:175-204 | The width `w2` that `write()` counts for the label it prints: two spaces, the short and long spellings, " arg" and " (=default)". It has no contract of its own; Help.Width's contract is stated against it. |
| Help.Width | include/cfg.hpp:157-171 | The column is at least 8 wide and leaves room for the label that the listing prints plus the two spaces it needs before the description (include/cfg.hpp:175-207). For a long-only option the room is exact. |

## Left out

* Help rendering: `operator<<`, `write`, terminal width and word wrapping. Only the label width that decides whether the description starts on the same line is modelled, as `Help.LabelWidth`.
* The `instance()` singleton, `init`, and clone/delete ownership. These are memory management. The registry is built from a sequence of declarations.
* The throwing `parse` overload and the exceptions of `get`. These are error transport; `Get` returns a `Result` instead.
* `std::any_cast` in `get`. `Value` is a closed tagged type, so a type mismatch cannot be expressed.
* `error_category` names and messages. Only the error kinds are modelled.
* Floating-point and the other arithmetic types. Numbers are `int`, parsed by the abstract `NumberParser`. `to_string` and `to_chars` are used only for help output, so they are not part of this model.
* `charconv` itself. It is not part of this model.
* The value that `from_chars` leaves after a failure. In C++ it is an indeterminate local; here it is the parser's `value` field.
* The `argv[i] == nullptr` break. The argument vector is a sequence of strings, so it has no null entries. Parse requires every entry to be bytes 1 to 255: no NUL, because a C string ends at its first NUL.
* Descriptor.SplitName: the length and character indices are by `char`, and a `char` stands for one byte. Given a Unicode character above 255 instead of its UTF-8 bytes, a non-ASCII spelling splits differently from the C++: "é" as one character would be its own short name.
* Scanner.Cluster: a cluster is walked one `char` at a time, which is one byte only when each `char` is a byte. A character above 255 would resolve as one short name, where the C++ looks up each of its bytes. `Parse` rules this out by requiring bytes 1 to 255.
* Help.Width: `|o.name|` counts `char`s, so it is the byte length only for byte strings.
* Descriptor.Bump: `m_seen` is a C++ `int`. Its overflow after 2^31 occurrences is not modelled.
* Cfg.Config.Count: returns a `nat` for the same reason.
* Help.Width: the 32-bit arithmetic of `width()` is unbounded here. Wrap-around would need a name longer than 4 GiB.
* Help.Width: the default's text is a parameter, because `get_default_value` goes through `to_string`.
