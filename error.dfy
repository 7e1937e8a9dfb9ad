/** The error kinds of src/error/error.rs and their Kirundi messages. */
module Errors {
  import opened Results

  datatype KirundiError = UndefinedVariable(name: string) | SyntaxError(msg: string) | RuntimeError(msg: string)

  const UndefinedPrefix: string := "Ndababariwe, ariko sinzi ico \U{2018}"
  const UndefinedSuffix: string := "\U{2019} bivuga. Woba wibagiye kuyishiraho?"
  const SyntaxPrefix: string := "Hari ikosa mu nyandiko: "
  const RuntimePrefix: string := "Ikibazo igihe ushitseko: "

  /** `Display::fmt`: the message shown for an error. It starts with the
      fixed prefix of its kind, which the payload follows; the message for an
      undefined variable also ends with a fixed suffix, the name between the
      two. */
  function Render(e: KirundiError): (r: string)
    ensures match e
      case UndefinedVariable(name) =>
        && HasPrefix(r, UndefinedPrefix)
        && |r| == |UndefinedPrefix| + |name| + |UndefinedSuffix|
        && r[|UndefinedPrefix|..|r| - |UndefinedSuffix|] == name
        && r[|r| - |UndefinedSuffix|..] == UndefinedSuffix
      case SyntaxError(msg) => HasPrefix(r, SyntaxPrefix) && r[|SyntaxPrefix|..] == msg
      case RuntimeError(msg) => HasPrefix(r, RuntimePrefix) && r[|RuntimePrefix|..] == msg
  {
    match e
    case UndefinedVariable(name) => UndefinedPrefix + name + UndefinedSuffix
    case SyntaxError(msg) => SyntaxPrefix + msg
    case RuntimeError(msg) => RuntimePrefix + msg
  }

  predicate HasPrefix(s: string, p: string)
  {
    |p| <= |s| && s[..|p|] == p
  }

  /** Reads the error back from a message: the kind from the prefix, the
      payload from between the fixed parts. */
  function Recover(s: string): Option<KirundiError>
  {
    if HasPrefix(s, UndefinedPrefix) && |s| >= |UndefinedPrefix| + |UndefinedSuffix|
       && s[|s| - |UndefinedSuffix|..] == UndefinedSuffix
    then Some(UndefinedVariable(s[|UndefinedPrefix|..|s| - |UndefinedSuffix|]))
    else if HasPrefix(s, SyntaxPrefix) then Some(SyntaxError(s[|SyntaxPrefix|..]))
    else if HasPrefix(s, RuntimePrefix) then Some(RuntimeError(s[|RuntimePrefix|..]))
    else None
  }

  /** Every message names its error: the kind and the payload come back. */
  lemma RecoverRender(e: KirundiError)
    ensures Recover(Render(e)) == Some(e)
  {
    var s := Render(e);
    match e {
      case UndefinedVariable(name) =>
        assert s[..|UndefinedPrefix|] == UndefinedPrefix;
        assert s[|s| - |UndefinedSuffix|..] == UndefinedSuffix;
        assert s[|UndefinedPrefix|..|s| - |UndefinedSuffix|] == name;
      case SyntaxError(msg) =>
        assert s[0] == 'H' != UndefinedPrefix[0];
        assert s[..|SyntaxPrefix|] == SyntaxPrefix;
        assert s[|SyntaxPrefix|..] == msg;
      case RuntimeError(msg) =>
        assert s[0] == 'I' != UndefinedPrefix[0];
        assert s[0] != SyntaxPrefix[0];
        assert s[..|RuntimePrefix|] == RuntimePrefix;
        assert s[|RuntimePrefix|..] == msg;
    }
  }

  /** Whatever is read back from a message renders as that message. */
  lemma RenderRecover(s: string)
    ensures Recover(s).Some? ==> Render(Recover(s).value) == s
  {
    match Recover(s) {
      case None =>
      case Some(e) =>
        match e {
          case UndefinedVariable(name) =>
            assert s == s[..|UndefinedPrefix|] + name + s[|s| - |UndefinedSuffix|..];
          case SyntaxError(msg) =>
            assert s == s[..|SyntaxPrefix|] + msg;
          case RuntimeError(msg) =>
            assert s == s[..|RuntimePrefix|] + msg;
        }
    }
  }

  /** Distinct errors have distinct messages. */
  lemma RenderInjective(e1: KirundiError, e2: KirundiError)
    ensures Render(e1) == Render(e2) ==> e1 == e2
  {
    RecoverRender(e1);
    RecoverRender(e2);
  }

  /** The kind of an error determines how its message starts. */
  lemma RenderPrefix(e: KirundiError)
    ensures e.UndefinedVariable? <==> HasPrefix(Render(e), UndefinedPrefix)
    ensures e.SyntaxError? <==> HasPrefix(Render(e), SyntaxPrefix)
    ensures e.RuntimeError? <==> HasPrefix(Render(e), RuntimePrefix)
  {
    var s := Render(e);
    match e {
      case UndefinedVariable(name) =>
        assert s[..|UndefinedPrefix|] == UndefinedPrefix;
        assert s[0] != SyntaxPrefix[0] && s[0] != RuntimePrefix[0];
      case SyntaxError(msg) =>
        assert s[..|SyntaxPrefix|] == SyntaxPrefix;
        assert s[0] != UndefinedPrefix[0] && s[0] != RuntimePrefix[0];
      case RuntimeError(msg) =>
        assert s[..|RuntimePrefix|] == RuntimePrefix;
        assert s[0] != UndefinedPrefix[0] && s[0] != SyntaxPrefix[0];
    }
  }
}
