/**
  The memoizer's error type: a closed set of failure causes, the error value
  that carries one, and their human-readable renderings.
 */
module MemErrors {
  import opened GoTypes
  import opened Decimal

  /** Go declares the cause as a named `int`, so any 64-bit value is representable. */
  type MemErrCause = Int64

  // The declared causes, numbered by `iota` in declaration order.
  const MemErrNone: MemErrCause := 0        // no error
  const MemErrSerErr: MemErrCause := 1      // an upstream service reported an error
  const MemErrSerCrash: MemErrCause := 2    // an upstream service crashed
  const MemErrSerCorrupt: MemErrCause := 3  // an upstream service returned bad results
  const MemErrBadArg: MemErrCause := 4      // the client sent an improper request

  /** The declared causes, in declaration order. */
  const DeclaredCauses: seq<MemErrCause> :=
    [MemErrNone, MemErrSerErr, MemErrSerCrash, MemErrSerCorrupt, MemErrBadArg]

  predicate IsDeclared(c: MemErrCause) {
    c in DeclaredCauses
  }

  /** A value of Go's `error` interface: either a MemErr or some other error with its message. */
  datatype ErrorValue = MemErrorValue(memErr: MemErr) | OtherError(message: string)

  /** The memoizer's error; `serErr` is the upstream's error (nil when absent). */
  datatype MemErr = MemErr(cause: MemErrCause, desc: string, serErr: Option<ErrorValue>)

  lemma DeclaredCausesAreIota()
    ensures |DeclaredCauses| == 5
    ensures forall i :: 0 <= i < |DeclaredCauses| ==> DeclaredCauses[i] == i
    ensures forall c: MemErrCause :: IsDeclared(c) <==> 0 <= c <= 4
  {
  }

  /** The `String` method of a cause: its constant's name, or a fallback for undeclared values. */
  function CauseString(c: MemErrCause): (s: string)
    ensures s == "MemErr_unknown" <==> !IsDeclared(c)
  {
    match c
    case 0 => "MemErr_none"
    case 1 => "MemErr_serErr"
    case 2 => "MemErr_serCrash"
    case 3 => "MemErr_serCorrupt"
    case 4 => "MemErr_badArg"
    case _ => "MemErr_unknown"
  }

  /** Reads a cause back from its name; the fallback name names no cause. */
  function CauseFromString(s: string): Option<MemErrCause>
  {
    if s == "MemErr_none" then Some(MemErrNone)
    else if s == "MemErr_serErr" then Some(MemErrSerErr)
    else if s == "MemErr_serCrash" then Some(MemErrSerCrash)
    else if s == "MemErr_serCorrupt" then Some(MemErrSerCorrupt)
    else if s == "MemErr_badArg" then Some(MemErrBadArg)
    else None
  }

  /** A declared cause's name identifies it; every other value shares the fallback name. */
  lemma CauseStringRoundTrip(c: MemErrCause)
    ensures CauseFromString(CauseString(c)) == if IsDeclared(c) then Some(c) else None
  {
  }

  lemma CauseStringInjectiveOnDeclared(c1: MemErrCause, c2: MemErrCause)
    requires IsDeclared(c1) && IsDeclared(c2)
    ensures CauseString(c1) == CauseString(c2) <==> c1 == c2
  {
    CauseStringRoundTrip(c1);
    CauseStringRoundTrip(c2);
  }

  // The fixed text that opens the rendering of each cause.
  const NonePrefix := "No error to report ("
  const SerErrPrefix := "Upstream service had an error ("
  const SerCrashPrefix := "Upstream service failed ("
  const SerCorruptPrefix := "Upstream service returned bad results ("
  const BadArgPrefix := "Bad client request ("
  const UnknownPrefix := "Unknown error "

  /** The `Error` method of a MemErr. */
  function ErrorString(e: MemErr): (s: string)
    decreases e, 1
  {
    match e.cause
    case 0 => NonePrefix + e.desc + ")"
    case 1 => SerErrPrefix + e.desc + "): " + WrappedString(e.serErr)
    case 2 => SerCrashPrefix + e.desc + ")"
    case 3 => SerCorruptPrefix + e.desc + ")"
    case 4 => BadArgPrefix + e.desc + ")"
    case _ => UnknownPrefix + IntToDecimal(e.cause) + " (" + e.desc + ")"
  }

  /** `%v` of an error value: its `Error` text, or `<nil>` for a nil error. */
  function WrappedString(w: Option<ErrorValue>): string
    decreases w, 0
  {
    match w
    case None => "<nil>"
    case Some(MemErrorValue(m)) => ErrorString(m)
    case Some(OtherError(msg)) => msg
  }

  /** Recovers the cause from the opening of an `Error` text. */
  function CauseFromErrorString(s: string): Option<MemErrCause>
  {
    if NonePrefix <= s then Some(MemErrNone)
    else if SerErrPrefix <= s then Some(MemErrSerErr)
    else if SerCrashPrefix <= s then Some(MemErrSerCrash)
    else if SerCorruptPrefix <= s then Some(MemErrSerCorrupt)
    else if BadArgPrefix <= s then Some(MemErrBadArg)
    else if UnknownPrefix <= s then
      var rest := s[|UnknownPrefix|..];
      match ParseDecimal(rest[..FirstSpace(rest)])
      case Some(n) =>
        if -0x8000_0000_0000_0000 <= n < 0x8000_0000_0000_0000 then Some(n as MemErrCause) else None
      case None => None
    else None
  }

  /** The index of the first space in `s`, or `|s|` when there is none. */
  function FirstSpace(s: string): (i: nat)
    ensures i <= |s|
  {
    if s == [] || s[0] == ' ' then 0 else 1 + FirstSpace(s[1..])
  }

  lemma {:induction false} FirstSpaceAfterWord(w: string, t: string)
    requires ' ' !in w
    requires 1 <= |t| && t[0] == ' '
    ensures FirstSpace(w + t) == |w|
    decreases |w|
  {
    if w != [] {
      assert (w + t)[1..] == w[1..] + t;
      FirstSpaceAfterWord(w[1..], t);
    }
  }

  lemma DiffersAt(p: string, s: string, i: nat)
    requires i < |p| && i < |s| && p[i] != s[i]
    ensures !(p <= s)
  {
  }

  /** Every cause, declared or not, can be read back from the error's rendering. */
  lemma ErrorStringDeterminesCause(e: MemErr)
    ensures CauseFromErrorString(ErrorString(e)) == Some(e.cause)
  {
    match e.cause
    case 0 => RecoverNone(e);
    case 1 => RecoverSerErr(e);
    case 2 => RecoverSerCrash(e);
    case 3 => RecoverSerCorrupt(e);
    case 4 => RecoverBadArg(e);
    case _ => RecoverUnknown(e);
  }

  lemma RecoverNone(e: MemErr)
    requires e.cause == MemErrNone
    ensures CauseFromErrorString(ErrorString(e)) == Some(e.cause)
  {
    assert ErrorString(e) == NonePrefix + (e.desc + ")");
  }

  lemma RecoverSerErr(e: MemErr)
    requires e.cause == MemErrSerErr
    ensures CauseFromErrorString(ErrorString(e)) == Some(e.cause)
  {
    var s := ErrorString(e);
    assert s == SerErrPrefix + (e.desc + "): " + WrappedString(e.serErr));
    DiffersAt(NonePrefix, s, 0);
  }

  lemma RecoverSerCrash(e: MemErr)
    requires e.cause == MemErrSerCrash
    ensures CauseFromErrorString(ErrorString(e)) == Some(e.cause)
  {
    var s := ErrorString(e);
    assert s == SerCrashPrefix + (e.desc + ")");
    DiffersAt(NonePrefix, s, 0);
    DiffersAt(SerErrPrefix, s, 17);
  }

  lemma RecoverSerCorrupt(e: MemErr)
    requires e.cause == MemErrSerCorrupt
    ensures CauseFromErrorString(ErrorString(e)) == Some(e.cause)
  {
    var s := ErrorString(e);
    assert s == SerCorruptPrefix + (e.desc + ")");
    DiffersAt(NonePrefix, s, 0);
    DiffersAt(SerErrPrefix, s, 17);
    DiffersAt(SerCrashPrefix, s, 17);
  }

  lemma RecoverBadArg(e: MemErr)
    requires e.cause == MemErrBadArg
    ensures CauseFromErrorString(ErrorString(e)) == Some(e.cause)
  {
    var s := ErrorString(e);
    assert s == BadArgPrefix + (e.desc + ")");
    DiffersAt(NonePrefix, s, 0);
    DiffersAt(SerErrPrefix, s, 0);
    DiffersAt(SerCrashPrefix, s, 0);
    DiffersAt(SerCorruptPrefix, s, 0);
  }

  lemma RecoverUnknown(e: MemErr)
    requires !IsDeclared(e.cause)
    ensures CauseFromErrorString(ErrorString(e)) == Some(e.cause)
  {
    var s := ErrorString(e);
    var d := IntToDecimal(e.cause);
    var t := " (" + e.desc + ")";
    assert s == UnknownPrefix + (d + t);
    DiffersAt(NonePrefix, s, 0);
    DiffersAt(SerErrPrefix, s, 1);
    DiffersAt(SerCrashPrefix, s, 1);
    DiffersAt(SerCorruptPrefix, s, 1);
    DiffersAt(BadArgPrefix, s, 0);
    var rest := s[|UnknownPrefix|..];
    assert rest == d + t;
    FirstSpaceAfterWord(d, t);
    assert rest[..FirstSpace(rest)] == d;
    IntToDecimalRoundTrip(e.cause);
  }

  /** Only the service-error rendering shows the wrapped upstream error. */
  lemma ErrorStringIgnoresWrappedUnlessSerErr(e: MemErr, w: Option<ErrorValue>)
    requires e.cause != MemErrSerErr
    ensures ErrorString(e.(serErr := w)) == ErrorString(e)
  {
  }

  /**
    The words that open each cause's rendering, before the parenthesised
    description: the fixed sentence of a declared cause, or "Unknown error"
    and the cause's number.
   */
  function CauseHead(c: MemErrCause): string
  {
    if c == MemErrNone then "No error to report"
    else if c == MemErrSerErr then "Upstream service had an error"
    else if c == MemErrSerCrash then "Upstream service failed"
    else if c == MemErrSerCorrupt then "Upstream service returned bad results"
    else if c == MemErrBadArg then "Bad client request"
    else "Unknown error " + IntToDecimal(c)
  }

  /**
    Every rendering is the cause's opening words followed by the description in
    parentheses; only the service-error rendering then adds ": " and the wrapped
    upstream error's own text.
   */
  lemma ErrorStringEnclosesDescription(e: MemErr)
    ensures ErrorString(e) ==
            CauseHead(e.cause) + " (" + e.desc + ")" + (if e.cause == MemErrSerErr then ": " + WrappedString(e.serErr) else "")
  {
    var head := CauseHead(e.cause);
    var tail := if e.cause == MemErrSerErr then ": " + WrappedString(e.serErr) else "";
    match e.cause
    case 0 => assert head + " (" == NonePrefix;
    case 1 => assert head + " (" == SerErrPrefix;
    case 2 => assert head + " (" == SerCrashPrefix;
    case 3 => assert head + " (" == SerCorruptPrefix;
    case 4 => assert head + " (" == BadArgPrefix;
    case _ => assert head == UnknownPrefix + IntToDecimal(e.cause);
    assert head + " (" + e.desc + ")" + tail == (head + " (") + e.desc + (")" + tail);
  }

  function CreateMemErr(cause: MemErrCause, desc: string, serErr: Option<ErrorValue>): (e: MemErr)
    ensures e.cause == cause && e.desc == desc && e.serErr == serErr
  {
    MemErr(cause, desc, serErr)
  }

  /** The cause of an error value; Go's type assertion panics on a value that is not a MemErr. */
  function GetErrCause(e: ErrorValue): (c: MemErrCause)
    requires e.MemErrorValue?
    ensures e == MemErrorValue(CreateMemErr(c, e.memErr.desc, e.memErr.serErr))
  {
    e.memErr.cause
  }

  lemma GetErrCauseOfCreated(c: MemErrCause, desc: string, w: Option<ErrorValue>)
    ensures GetErrCause(MemErrorValue(CreateMemErr(c, desc, w))) == c
  {
  }
}
