# BigchainDB transactions endpoint — Dafny model

This project models the logic of the BigchainDB HTTP view for transactions
(`bigchaindb/web/views/transactions.py`):

- the four query-argument validators `valid_txid`, `valid_bool`,
  `valid_ed25519` and `valid_operation`, each a total function from a string
  to a `Result` (a normalised value, or the `ValueError` it raises);
- the acceptance decision of `TransactionListApi.post`: a request body is
  parsed by `Transaction.from_dict`, validated by `validate_transaction`, and
  written with `write_transaction` only when both succeed.

Modules:

- `Results` (`results.dfy`): `Result` and `Option`.
- `Ascii` (`ascii.dfy`): ASCII character classes and case folding, standing
  for Python's `str.lower()` / `str.upper()`, and the "some casing of a word"
  predicate that describes case-insensitive comparison independently.
- `PyRegex` (`pyregex.dfy`): `re.match` of a pattern `^[class]{lo,hi}$`
  without MULTILINE, modelled as the engine searches (greedy repetition, then
  backtracking) and proved equal to a declarative semantics. The character
  class is kept literally as ranges plus single characters, and `$` keeps
  Python's rule that it also matches just before a final newline.
- `QueryArgs` (`query_args.dfy`): the validators, each with a declarative
  description of the strings it accepts that does not mention the regex.
- `TransactionPost` (`transaction_post.dfy`): the POST handler. The outcomes of
  `from_dict`, `validate_transaction` and `write_transaction` are inputs (an
  exception, or none); the handler returns a response and the sequence of
  calls it made on the node. Exceptions carry their class and base classes,
  so an `except (A, B)` clause is `isinstance` against a set of classes.

Two behaviours of the validators are easy to miss in the code and are kept
as written:

- A valid id or key followed by one `"\n"` is accepted, and returned with
  the newline (Python's `$`).
- In `[1-9a-zA-Z^OIl]` the caret is a literal character and `O`, `I`, `l` are
  already inside `a-zA-Z`: the key alphabet is 1-9, every ASCII letter, and `^`.
  Base58 excludes 0, O, I and l; this class admits O, I and l, and of the
  four rejects only 0.

## Model

| member | source | states |
|---|---|---|
| `PyRegex.Match` | bigchaindb/web/views/transactions.py:76 | the greedy-then-backtracking search of `re.match('^[cls]{lo,hi}$', s)` succeeds exactly when some repetition count between lo and hi covers a run of class characters after which `$` matches |
| `PyRegex.GreedyRun` | bigchaindb/web/views/transactions.py:76 | the greedy repetition consumes at most hi characters, all in the class, and stops early only at a character outside the class |
| `PyRegex.Backtrack` | bigchaindb/web/views/transactions.py:76 | giving characters back from k down to lo finds a position where `$` matches exactly when one exists |
| `PyRegex.MatchesIffBody` | bigchaindb/web/views/transactions.py:90 | for a class without the newline, the pattern accepts exactly the strings whose body (the string less one final newline) has lo..hi characters, all in the class |
| `QueryArgs.HexClassIsHexDigits` | bigchaindb/web/views/transactions.py:76 | `[a-fA-F0-9]` admits exactly the hexadecimal digits in either case |
| `QueryArgs.KeyClassIsKeyChars` | bigchaindb/web/views/transactions.py:90 | `[1-9a-zA-Z^OIl]` admits exactly 1-9, the ASCII letters and `^`; `0` is out, `O`, `I`, `l` and `^` are in |
| `QueryArgs.TxidPatternIffTxidText` | bigchaindb/web/views/transactions.py:76 | the id pattern matches exactly 64 hex digits, optionally followed by one newline |
| `QueryArgs.KeyPatternIffKeyText` | bigchaindb/web/views/transactions.py:90 | the key pattern matches exactly 43 or 44 key characters, optionally followed by one newline |
| `QueryArgs.ValidTxid` | bigchaindb/web/views/transactions.py:75-78 | accepts exactly 64 hex digits plus an optional final newline; the result is the lower-cased input, of the same length, with no upper-case letter; anything else raises ValueError("Not a valid hash") |
| `QueryArgs.ValidTxidIdempotent` | bigchaindb/web/views/transactions.py:76-77 | an accepted id is accepted again and returned unchanged |
| `QueryArgs.ValidBool` | bigchaindb/web/views/transactions.py:81-86 | returns true exactly for the casings of "true", false exactly for the casings of "false", and raises the boolean ValueError otherwise |
| `QueryArgs.ValidBoolTotal` | bigchaindb/web/views/transactions.py:81-86 | no input is a casing of both words, and the inputs that raise are exactly those that are a casing of neither |
| `QueryArgs.ValidEd25519` | bigchaindb/web/views/transactions.py:89-92 | accepts exactly 43 or 44 characters from 1-9, the letters and `^`, plus an optional final newline; returns the lower-cased input; anything else raises ValueError("Not a valid hash") |
| `QueryArgs.LowerKeepsKeyChars` | bigchaindb/web/views/transactions.py:91 | lower-casing a string of key characters leaves a string of key characters |
| `QueryArgs.ValidEd25519Idempotent` | bigchaindb/web/views/transactions.py:90-91 | an accepted key is accepted again and returned unchanged |
| `QueryArgs.ValidOperationAsWritten` | bigchaindb/web/views/transactions.py:95-100 | as written, every input raises ValueError with the operation message: the uncalled `op.upper` never equals "CREATE" or "TRANSFER" |
| `QueryArgs.ValidOperation` | bigchaindb/web/views/transactions.py:95-100 | the intended validator (see Findings): "CREATE" exactly for the casings of "create", "TRANSFER" exactly for the casings of "transfer", ValueError otherwise |
| `QueryArgs.ValidOperationDiscrepancy` | bigchaindb/web/views/transactions.py:96-99 | "CREATE" and "transfer" are rejected as written and accepted as intended |
| `Ascii.LowerEqualsIffCasing` | bigchaindb/web/views/transactions.py:82-84 | with ASCII lower-casing, `Lower(s) == w`, for a lower-case word w, holds exactly when s is w with each letter in either case |
| `Ascii.UpperEqualsIffCasing` | bigchaindb/web/views/transactions.py:96-98 | with ASCII upper-casing, `Upper(s) == Upper(w)`, for a lower-case word w, holds exactly when s is a casing of w |
| `Ascii.ToLower` | bigchaindb/web/views/transactions.py:77 | one character of `str.lower()` on ASCII: the result is never an upper-case letter, is a letter or a hex digit exactly when the input is, and a non-letter is kept |
| `Ascii.ToUpper` | bigchaindb/web/views/transactions.py:96 | one character of the intended `str.upper()` on ASCII: the result is never a lower-case letter, is a letter exactly when the input is, and a non-letter is kept |
| `Ascii.Lower` | bigchaindb/web/views/transactions.py:82 | `s.lower()` on ASCII: same length, each character lower-cased in place |
| `Ascii.Upper` | bigchaindb/web/views/transactions.py:98 | `s.upper()` on ASCII: same length, each character upper-cased in place |
| `QueryArgs.PyEq` | bigchaindb/web/views/transactions.py:96-98 | Python `==` between a str and a bound method: equal values compare equal, a str never equals a method, and two strs compare by contents |
| `Ascii.LowerHasNoUpper` | bigchaindb/web/views/transactions.py:77 | a lower-cased string has no upper-case letter |
| `TransactionPost.Post` | bigchaindb/web/views/transactions.py:113-161 | a body from_dict rejects makes no call on the node; a parsed body is validated first; write_transaction is called once when parse and validation succeed and never otherwise; the response is the request body exactly when the write also succeeded |
| `TransactionPost.FromDictFailureNeverWrites` | bigchaindb/web/views/transactions.py:126-138 | a from_dict failure makes no node call; a schema error gives the schema 400 when `e.__cause__.message` can be read and lets an AttributeError escape when it cannot; another ValidationError or InvalidSignature gives a 400 naming its class; any other exception escapes |
| `TransactionPost.ListedValidationErrorIsBadRequest` | bigchaindb/web/views/transactions.py:141-155 | an error of any class in the validate clause gives a 400 naming the error's class, after one validate call and no write |
| `TransactionPost.WrittenIffAccepted` | bigchaindb/web/views/transactions.py:140-159 | write_transaction is called exactly once, for the parsed transaction and after validating it, if and only if parse and validation succeeded; otherwise no call is a write |
| `TransactionPost.BadRequestNeverWrites` | bigchaindb/web/views/transactions.py:126-155 | every 400 comes from a rejected transaction and no write happened |
| `TransactionPost.SuccessEchoesBody` | bigchaindb/web/views/transactions.py:156-161 | on success the response is the request body object itself, after one validate and one write |

## Left out

- `TransactionApi.get` and `TransactionStatusApi.get`: lookups on the node that return 404 on a falsy result; the lookups themselves are not part of this model.
- `TransactionListApi.get`: it only wires the validators into Flask's request parser and returns the parsed arguments; the parser is a framework call.
- `request.get_json(force=True)`: the parsed request body is an input of `Post`. A body that does not parse makes this call raise Flask's BadRequest inside the handler, after the configuration reads and before `from_dict` or any call on the node; that path is not modelled.
- `make_error` and the text of the 400 messages: a 400 is modelled by its reason (schema error, or the class name of the error), not by its formatted message.
- The `bigchain_pool` context manager, the `bigchaindb.config['statsd']['rate']` lookup and the `monitor.timer` entry are assumed not to raise. Two error paths are therefore not modelled: if `pool()` raises, a parsed body escapes without ever being validated; if the statsd lookup or the timer raises, a parsed and validated body escapes without being written.
- `TransactionPost.WrittenIffAccepted`: a write on every accepted request holds only under that assumption; a raising pool, statsd lookup or timer leaves an accepted request unwritten.
- `TransactionPost.Post`: "a parsed body is validated first" and "written once when parse and validation succeed" hold only if the pool, the statsd lookup and the timer do not raise.
- `TransactionPost.SuccessEchoesBody`: the request dict is passed by reference to `from_dict`, and the same object is returned. `from_dict`, `validate_transaction` and `write_transaction` are assumed not to change it. The body is an immutable value here, so "unchanged" is not a promise the source's code shows.
- `Transaction.from_dict`, `validate_transaction`, `write_transaction`: their code is not part of this model; their outcomes are inputs of `Post`.
- The exception class hierarchy of `bigchaindb.common.exceptions` is not part of this model: each exception carries its own set of base classes.
- `bigchaindb/web/routes.py` (a static route table) and `tests/integration/test_integration.py` (needs running nodes and a storage backend).
- The ledger core (output ledger, double-spend resolution, block assembly, voting, consensus): its code is not part of this model.
- `Ascii.UpperEqualsIffCasing`: holds for ASCII upper-casing only. Python's `str.upper()` also maps ſ to `S`, ı to `I`, ß to `SS` and the ligatures U+FB00-FB06 onto ASCII letters, so `"tranſfer".upper() == "TRANSFER"` although "tranſfer" is no casing of "transfer".
- `Ascii.LowerEqualsIffCasing`: holds for ASCII lower-casing only. Python's `str.lower()` also maps the Kelvin sign U+212A to `k`; no non-ASCII character lower-cases into a letter of "true" or "false", so the words used with it are unaffected.
- `QueryArgs.ValidOperation`: `str.upper()` is ASCII upper-casing, so Python's mapping of the long s (U+017F) to `S`, which makes `"tranſfer".upper() == "TRANSFER"`, is not modelled.
- `QueryArgs.ValidBool`: `str.lower()` is ASCII lower-casing; no non-ASCII character lower-cases into a letter of "true" or "false", so acceptance is unaffected.

## Findings

| source | as written | input that shows it | evidently intended | confidence | as-written member | corrected member |
|---|---|---|---|---|---|---|
| bigchaindb/web/views/transactions.py:96-99 | `op.upper == 'CREATE'` compares the bound method `op.upper`, never called, with a string, which is always false, so every operation raises ValueError | `"CREATE"` (and every other string) | `op.upper() == 'CREATE'` / `'TRANSFER'`: accept every casing of the two operation names | high (not executed) | `QueryArgs.ValidOperationAsWritten` (with `QueryArgs.ValidOperationDiscrepancy`) | `QueryArgs.ValidOperation` |
