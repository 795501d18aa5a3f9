/**
 * Error wrapping around the driver boundary (flowvec.h): the exception type
 * carrying a status code, the message it is built with, and the two
 * check-and-throw macros that turn a failing status into that exception.
 *
 * A thrown exception is modelled as a failure value that callers pass on.
 */
module NvOFErrors {
  import opened NvOFInterface

  /** NvOFException: the message `what()` returns and the status `getErrorCode()` returns. */
  datatype NvOFException = NvOFException(errorString: string, errorCode: Status)

  /** The outcome of a step that returns nothing or throws. */
  datatype Outcome = Pass | Fail(error: NvOFException)

  /** The outcome of a step that returns a value or throws. */
  datatype Result<T> = Ok(value: T) | Err(error: NvOFException)

  /** Where a macro was expanded: __FUNCTION__, __FILE__ and __LINE__. */
  datatype Site = Site(functionName: string, fileName: string, lineNo: int)

  // ---------------------------------------------------------------------------
  // Decimal formatting, as a stream inserts an integer
  // ---------------------------------------------------------------------------

  predicate IsDigit(c: char) { '0' <= c <= '9' }

  predicate AllDigits(s: string) { forall i :: 0 <= i < |s| ==> IsDigit(s[i]) }

  function DigitChar(d: nat): (c: char)
    requires d < 10
    ensures IsDigit(c) && c as int - '0' as int == d
  {
    ('0' as int + d) as char
  }

  /** The decimal digits of n, most significant first, with no leading zero. */
  function NatToString(n: nat): (s: string)
    ensures |s| >= 1 && AllDigits(s)
    ensures s[0] == '0' ==> n == 0
  {
    if n < 10 then [DigitChar(n)] else NatToString(n / 10) + [DigitChar(n % 10)]
  }

  /** An integer as a stream prints it: a minus sign before the digits of a negative value. */
  function IntToString(n: int): (s: string)
    ensures n >= 0 ==> AllDigits(s)
    ensures n < 0 ==> |s| >= 2 && s[0] == '-' && AllDigits(s[1..])
  {
    if n < 0 then "-" + NatToString(-n) else NatToString(n)
  }

  /** The value of a string of decimal digits. */
  function ParseNat(s: string): nat
    requires AllDigits(s)
  {
    if s == [] then 0 else 10 * ParseNat(s[..|s| - 1]) + (s[|s| - 1] as int - '0' as int)
  }

  lemma {:induction false} NatToStringRoundTrip(n: nat)
    ensures ParseNat(NatToString(n)) == n
  {
    if n >= 10 {
      var s := NatToString(n);
      assert s[..|s| - 1] == NatToString(n / 10);
      NatToStringRoundTrip(n / 10);
    }
  }

  // ---------------------------------------------------------------------------
  // makeNvOFException
  // ---------------------------------------------------------------------------

  /** The message: function name, " : ", the error text, " at ", the file, ";", the line, and a newline. */
  function MakeNvOFException(errorStr: string, errorCode: Status, functionName: string, fileName: string, lineNo: int): (e: NvOFException)
    ensures e.errorCode == errorCode
    ensures |e.errorString| > |functionName| + 3 && e.errorString[..|functionName|] == functionName
    ensures e.errorString[|e.errorString| - 1] == '\n'
  {
    var msg := functionName + " : " + errorStr + " at " + fileName + ";" + IntToString(lineNo) + "\n";
    assert msg[..|functionName|] == functionName;
    NvOFException(msg, errorCode)
  }

  /** The longest suffix of s made of digits. */
  function DigitSuffix(s: string): (d: string)
    ensures AllDigits(d) && |d| <= |s| && d == s[|s| - |d|..]
    ensures |d| < |s| ==> !IsDigit(s[|s| - |d| - 1])
  {
    if s != [] && IsDigit(s[|s| - 1]) then DigitSuffix(s[..|s| - 1]) + [s[|s| - 1]] else []
  }

  /** Reads the line number back from the end of a message: ";", digits, newline. */
  function TrailingLineNo(msg: string): Option<nat>
  {
    if |msg| < 2 || msg[|msg| - 1] != '\n' then None
    else
      var body := msg[..|msg| - 1];
      var digits := DigitSuffix(body);
      if digits != [] && |digits| < |body| && body[|body| - |digits| - 1] == ';' then Some(ParseNat(digits))
      else None
  }

  lemma {:induction false} DigitSuffixOfDigits(prefix: string, digits: string)
    requires AllDigits(digits)
    requires prefix != [] && !IsDigit(prefix[|prefix| - 1])
    ensures DigitSuffix(prefix + digits) == digits
  {
    if digits != [] {
      var s := prefix + digits;
      assert s[..|s| - 1] == prefix + digits[..|digits| - 1];
      DigitSuffixOfDigits(prefix, digits[..|digits| - 1]);
    } else {
      assert prefix + digits == prefix;
    }
  }

  /** The exception's message keeps the line number it was raised at, readable from its end. */
  lemma MessageCarriesLineNo(errorStr: string, errorCode: Status, functionName: string, fileName: string, lineNo: nat)
    ensures TrailingLineNo(MakeNvOFException(errorStr, errorCode, functionName, fileName, lineNo).errorString) == Some(lineNo)
  {
    var prefix := functionName + " : " + errorStr + " at " + fileName + ";";
    var digits := NatToString(lineNo);
    assert MakeNvOFException(errorStr, errorCode, functionName, fileName, lineNo).errorString == prefix + digits + "\n";
    TrailingLineNoOf(prefix, digits);
    NatToStringRoundTrip(lineNo);
  }

  lemma TrailingLineNoOf(prefix: string, digits: string)
    requires prefix != [] && prefix[|prefix| - 1] == ';'
    requires digits != [] && AllDigits(digits)
    ensures TrailingLineNo(prefix + digits + "\n") == Some(ParseNat(digits))
  {
    var body := prefix + digits;
    var msg := body + "\n";
    assert |msg| >= 2 && msg[|msg| - 1] == '\n';
    assert msg[..|msg| - 1] == body;
    DigitSuffixOfDigits(prefix, digits);
    assert body[|body| - |digits| - 1] == prefix[|prefix| - 1];
  }

  // ---------------------------------------------------------------------------
  // The check-and-throw macros
  // ---------------------------------------------------------------------------

  /**
   * NVOF_API_CALL: a status other than success becomes an exception carrying
   * that status, whose text is the call's source text, "returned error " and
   * the status's number.
   */
  function ApiCall(status: Status, callText: string, site: Site): (r: Outcome)
    ensures r.Pass? <==> status == Success
    ensures r.Fail? ==> r.error.errorCode == status
  {
    if status != Success then
      var errorStr := callText + "returned error " + NatToString(status.Code());
      Fail(MakeNvOFException(errorStr, status, site.functionName, site.fileName, site.lineNo))
    else
      Pass
  }

  const CudaSuccess := 0

  /**
   * CUDA_DRVAPI_CALL: any result other than CUDA_SUCCESS becomes an exception
   * with the generic status, whatever the CUDA error was; `errName` is the
   * name the CUDA driver gives the error.
   */
  function CudaCall(result: int, errName: string, site: Site): (r: Outcome)
    ensures r.Pass? <==> result == CudaSuccess
    ensures r.Fail? ==> r.error.errorCode == ErrGeneric
  {
    if result != CudaSuccess then
      Fail(MakeNvOFException("CUDA driver API error " + errName, ErrGeneric, site.functionName, site.fileName, site.lineNo))
    else
      Pass
  }
}
