/**
 * The query-argument validators of the transactions endpoint
 * (`valid_txid`, `valid_bool`, `valid_ed25519`, `valid_operation`).
 * Each returns the normalised argument or raises `ValueError`; raising is `Failure`.
 */
module QueryArgs {
  import opened Results
  import opened Ascii
  import opened PyRegex

  /** A raised `ValueError` and its message. */
  datatype ValueError = ValueError(message: string)

  const NotAValidHash: string := "Not a valid hash"
  const BoolMessage: string := "Boolean value must be \"true\" or \"false\""
  /** Without a closing quote after TRANSFER, as in the message `valid_operation` raises. */
  const OperationMessage: string := "Operation must be \"CREATE\" or \"TRANSFER"

  /** `[a-fA-F0-9]` */
  const HexClass: CharClass := CharClass([('a', 'f'), ('A', 'F'), ('0', '9')], [])

  /** `[1-9a-zA-Z^OIl]`: the caret is a literal here, and O, I, l repeat letters already in range. */
  const KeyClass: CharClass := CharClass([('1', '9'), ('a', 'z'), ('A', 'Z')], ['^', 'O', 'I', 'l'])

  const TxidPattern: BoundedPattern := BoundedPattern(HexClass, 64, 64)
  const KeyPattern: BoundedPattern := BoundedPattern(KeyClass, 43, 44)

  /** A character of a public key as the class actually admits it: 1-9, any ASCII letter, or `^`. */
  predicate IsKeyChar(c: char) {
    ('1' <= c <= '9') || IsLetter(c) || c == '^'
  }

  predicate AllHex(s: string) {
    forall i :: 0 <= i < |s| ==> IsHexDigit(s[i])
  }

  predicate AllKeyChars(s: string) {
    forall i :: 0 <= i < |s| ==> IsKeyChar(s[i])
  }

  /** Exactly 64 hexadecimal digits in either case, optionally followed by one newline. */
  ghost predicate IsTxidText(s: string) {
    || (|s| == 64 && AllHex(s))
    || (|s| == 65 && AllHex(s[..64]) && s[64] == '\n')
  }

  /** 43 or 44 key characters, optionally followed by one newline. */
  ghost predicate IsKeyText(s: string) {
    || (43 <= |s| <= 44 && AllKeyChars(s))
    || (44 <= |s| <= 45 && AllKeyChars(s[..|s| - 1]) && s[|s| - 1] == '\n')
  }

  /** Membership in `[a-fA-F0-9]` is being a hexadecimal digit. */
  lemma HexClassIsHexDigits(c: char)
    ensures InClass(HexClass, c) <==> IsHexDigit(c)
  {
    if IsHexDigit(c) {
      if IsDigit(c) {
        assert HexClass.ranges[2].0 <= c <= HexClass.ranges[2].1;
      } else if 'a' <= c <= 'f' {
        assert HexClass.ranges[0].0 <= c <= HexClass.ranges[0].1;
      } else {
        assert HexClass.ranges[1].0 <= c <= HexClass.ranges[1].1;
      }
    }
  }

  /**
   * Membership in `[1-9a-zA-Z^OIl]` is: a digit 1-9, an ASCII letter, or the caret.
   * In particular '0' is out, and 'O', 'I', 'l' are in.
   */
  lemma KeyClassIsKeyChars(c: char)
    ensures InClass(KeyClass, c) <==> IsKeyChar(c)
    ensures !InClass(KeyClass, '0')
    ensures InClass(KeyClass, 'O') && InClass(KeyClass, 'I') && InClass(KeyClass, 'l')
    ensures InClass(KeyClass, '^')
  {
    if IsKeyChar(c) {
      if '1' <= c <= '9' {
        assert KeyClass.ranges[0].0 <= c <= KeyClass.ranges[0].1;
      } else if IsLower(c) {
        assert KeyClass.ranges[1].0 <= c <= KeyClass.ranges[1].1;
      } else if IsUpper(c) {
        assert KeyClass.ranges[2].0 <= c <= KeyClass.ranges[2].1;
      }
    }
    assert KeyClass.ranges[2].0 <= 'O' <= KeyClass.ranges[2].1;
    assert KeyClass.ranges[2].0 <= 'I' <= KeyClass.ranges[2].1;
    assert KeyClass.ranges[1].0 <= 'l' <= KeyClass.ranges[1].1;
  }

  /** The transaction-id pattern accepts exactly the txid texts. */
  lemma TxidPatternIffTxidText(s: string)
    ensures Match(TxidPattern, s) <==> IsTxidText(s)
  {
    HexClassIsHexDigits('\n');
    forall c: char ensures InClass(HexClass, c) <==> IsHexDigit(c) {
      HexClassIsHexDigits(c);
    }
    MatchesIffBody(TxidPattern, s);
    if |s| == 65 && s[64] == '\n' {
      assert Body(s) == s[..64];
    }
  }

  /** The public-key pattern accepts exactly the key texts. */
  lemma KeyPatternIffKeyText(s: string)
    ensures Match(KeyPattern, s) <==> IsKeyText(s)
  {
    KeyClassIsKeyChars('\n');
    forall c: char ensures InClass(KeyClass, c) <==> IsKeyChar(c) {
      KeyClassIsKeyChars(c);
    }
    MatchesIffBody(KeyPattern, s);
  }

  /**
   * `valid_txid`: accepts exactly 64 hex digits (plus an optional final newline)
   * and returns them lower-cased, same length, with no upper-case letter left.
   */
  function ValidTxid(txid: string): (r: Result<string, ValueError>)
    ensures r.Success? <==> IsTxidText(txid)
    ensures r.Success? ==> r.value == Lower(txid)
    ensures r.Success? ==> |r.value| == |txid| && forall i :: 0 <= i < |r.value| ==> !IsUpper(r.value[i])
    ensures r.Failure? ==> r.error == ValueError(NotAValidHash)
  {
    TxidPatternIffTxidText(txid);
    if Match(TxidPattern, txid) then Success(Lower(txid)) else Failure(ValueError(NotAValidHash))
  }

  /** An accepted id is accepted again and comes back unchanged. */
  lemma ValidTxidIdempotent(txid: string)
    requires IsTxidText(txid)
    ensures ValidTxid(txid).Success?
    ensures ValidTxid(ValidTxid(txid).value) == ValidTxid(txid)
  {
    var out := Lower(txid);
    if |txid| == 65 {
      assert out[..64] == Lower(txid[..64]);
    }
    assert IsTxidText(out);
    LowerIdempotent(txid);
  }

  /** `valid_bool`: true for every casing of "true", false for every casing of "false", otherwise raises. */
  function ValidBool(val: string): (r: Result<bool, ValueError>)
    ensures r == Success(true) <==> IsCasingOf(val, "true")
    ensures r == Success(false) <==> IsCasingOf(val, "false")
    ensures r.Failure? ==> r.error == ValueError(BoolMessage)
  {
    LowerEqualsIffCasing(val, "true");
    LowerEqualsIffCasing(val, "false");
    if Lower(val) == "true" then Success(true)
    else if Lower(val) == "false" then Success(false)
    else Failure(ValueError(BoolMessage))
  }

  /** No string is both a casing of "true" and a casing of "false", and every other string raises. */
  lemma ValidBoolTotal(val: string)
    ensures !(IsCasingOf(val, "true") && IsCasingOf(val, "false"))
    ensures ValidBool(val).Failure? <==> !IsCasingOf(val, "true") && !IsCasingOf(val, "false")
  {
  }

  /**
   * `valid_ed25519`: accepts exactly 43 or 44 characters from 1-9, the ASCII letters
   * and `^` (plus an optional final newline), and returns them lower-cased.
   */
  function ValidEd25519(key: string): (r: Result<string, ValueError>)
    ensures r.Success? <==> IsKeyText(key)
    ensures r.Success? ==> r.value == Lower(key)
    ensures r.Failure? ==> r.error == ValueError(NotAValidHash)
  {
    KeyPatternIffKeyText(key);
    if Match(KeyPattern, key) then Success(Lower(key)) else Failure(ValueError(NotAValidHash))
  }

  /** Lower-casing keeps every key character a key character. */
  lemma LowerKeepsKeyChars(s: string)
    requires AllKeyChars(s)
    ensures AllKeyChars(Lower(s))
  {
    forall i | 0 <= i < |s|
      ensures IsKeyChar(Lower(s)[i])
    {
      assert Lower(s)[i] == ToLower(s[i]);
    }
  }

  /** Lower-casing keeps the key alphabet and the length, so an accepted key is accepted again unchanged. */
  lemma ValidEd25519Idempotent(key: string)
    requires IsKeyText(key)
    ensures ValidEd25519(key).Success?
    ensures ValidEd25519(ValidEd25519(key).value) == ValidEd25519(key)
  {
    var out := Lower(key);
    if 43 <= |key| <= 44 && AllKeyChars(key) {
      LowerKeepsKeyChars(key);
    } else {
      var n := |key| - 1;
      assert out[..n] == Lower(key[..n]);
      LowerKeepsKeyChars(key[..n]);
      assert out[n] == '\n';
    }
    assert IsKeyText(out);
    LowerIdempotent(key);
  }

  /** Python values that meet in the `==` of `valid_operation`. */
  datatype PyValue = PyStr(s: string) | PyBoundMethod(name: string, receiver: string)

  /**
   * Python `==`: strings compare by contents, and a string and a method are
   * never equal (both sides answer NotImplemented, and the identity fallback
   * fails). Two bound methods are compared here by name and receiver value, an
   * approximation: CPython compares their receivers by identity. No path of the
   * validators compares two methods.
   */
  function PyEq(a: PyValue, b: PyValue): (eq: bool)
    ensures a == b ==> eq
    ensures eq ==> a.PyStr? == b.PyStr?
    ensures a.PyStr? && b.PyStr? ==> (eq <==> a.s == b.s)
  {
    match (a, b)
    case (PyStr(x), PyStr(y)) => x == y
    case (PyBoundMethod(f, x), PyBoundMethod(g, y)) => f == g && x == y
    case _ => false
  }

  /**
   * `valid_operation` as written: it compares the attribute `op.upper`, a bound
   * method that is never called, with a string; that is never equal, so every
   * input raises.
   */
  function ValidOperationAsWritten(op: string): (r: Result<string, ValueError>)
    ensures r == Failure(ValueError(OperationMessage))
  {
    var upper := PyBoundMethod("upper", op);
    if PyEq(upper, PyStr("CREATE")) then Success("CREATE")
    else if PyEq(upper, PyStr("TRANSFER")) then Success("TRANSFER")
    else Failure(ValueError(OperationMessage))
  }

  /**
   * `valid_operation` as evidently intended, with `op.upper()` called:
   * every casing of "create" gives "CREATE", every casing of "transfer" gives
   * "TRANSFER", anything else raises.
   */
  function ValidOperation(op: string): (r: Result<string, ValueError>)
    ensures r == Success("CREATE") <==> IsCasingOf(op, "create")
    ensures r == Success("TRANSFER") <==> IsCasingOf(op, "transfer")
    ensures r.Failure? <==> !IsCasingOf(op, "create") && !IsCasingOf(op, "transfer")
    ensures r.Failure? ==> r.error == ValueError(OperationMessage)
  {
    UpperEqualsIffCasing(op, "create");
    UpperEqualsIffCasing(op, "transfer");
    assert Upper("create") == "CREATE";
    assert Upper("transfer") == "TRANSFER";
    var upper := PyStr(Upper(op));
    if PyEq(upper, PyStr("CREATE")) then Success("CREATE")
    else if PyEq(upper, PyStr("TRANSFER")) then Success("TRANSFER")
    else Failure(ValueError(OperationMessage))
  }

  /** The input "CREATE" shows the discrepancy: rejected as written, accepted as intended. */
  lemma ValidOperationDiscrepancy()
    ensures ValidOperationAsWritten("CREATE").Failure?
    ensures ValidOperation("CREATE") == Success("CREATE")
    ensures ValidOperationAsWritten("transfer").Failure?
    ensures ValidOperation("transfer") == Success("TRANSFER")
  {
    assert IsCasingOf("CREATE", "create");
    assert IsCasingOf("transfer", "transfer");
  }
}
