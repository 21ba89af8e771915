/** `P2pException`: a peer-to-peer failure carrying one of a closed set of kinds, each with
    a fixed integer code and description. */
module P2pErrors {
  import opened Wrappers
  import opened Decimal

  /** `P2pException.TypeEnum`. */
  datatype TypeEnum = NoSuchMessage | ParseMessageFailed | Default

  /** `getValue`: the kind's integer code. */
  function Value(t: TypeEnum): (v: int)
    ensures v > 0
  {
    match t
    case NoSuchMessage => 1
    case ParseMessageFailed => 2
    case Default => 100
  }

  /** `getDesc`: the kind's description. */
  function Desc(t: TypeEnum): string {
    match t
    case NoSuchMessage => "No such message"
    case ParseMessageFailed => "Parse message failed"
    case Default => "default exception"
  }

  /** The kind with a given code, if any: the inverse of `Value`. */
  function FromValue(v: int): (r: Option<TypeEnum>)
    ensures r.Some? ==> Value(r.value) == v
  {
    if v == 1 then Some(NoSuchMessage)
    else if v == 2 then Some(ParseMessageFailed)
    else if v == 100 then Some(Default)
    else None
  }

  /** Every kind is found again from its code, so distinct kinds have distinct codes. */
  lemma FromValueInvertsValue(t: TypeEnum)
    ensures FromValue(Value(t)) == Some(t)
  {
  }

  lemma ValueInjective(a: TypeEnum, b: TypeEnum)
    ensures Value(a) == Value(b) ==> a == b
  {
    FromValueInvertsValue(a);
    FromValueInvertsValue(b);
  }

  /** The separator `toString` puts between code and description. */
  const Separator: string := ", "

  /** `TypeEnum.toString`: the code in decimal, then ", ", then the description. */
  function ToString(t: TypeEnum): (s: string)
    ensures |s| > |Separator|
  {
    IntToString(Value(t)) + Separator + Desc(t)
  }

  /** Splits a `toString` rendering back into code and description. */
  function ParseToString(s: string): Option<(int, string)> {
    match ParseIntPrefix(s)
    case None => None
    case Some((v, rest)) =>
      if |rest| >= |Separator| && rest[..|Separator|] == Separator
      then Some((v, rest[|Separator|..]))
      else None
  }

  /** The rendering of a kind reads back as exactly its code and its description, so
      `toString` is injective over the kinds. */
  lemma {:induction false} ToStringParses(t: TypeEnum)
    ensures ParseToString(ToString(t)) == Some((Value(t), Desc(t)))
  {
    var rest := Separator + Desc(t);
    assert IntToString(Value(t)) + Separator + Desc(t) == IntToString(Value(t)) + rest;
    IntToStringParses(Value(t), rest);
    assert rest[..|Separator|] == Separator;
    assert rest[|Separator|..] == Desc(t);
  }

  /** The rendering of each kind, spelled out. */
  lemma NoSuchMessageToString()
    ensures Value(NoSuchMessage) == 1 && Desc(NoSuchMessage) == "No such message"
    ensures ToString(NoSuchMessage) == "1, No such message"
  {
    assert IntToString(1) == "1";
    assert ToString(NoSuchMessage) == "1" + ", " + "No such message";
  }

  lemma ParseMessageFailedToString()
    ensures Value(ParseMessageFailed) == 2 && Desc(ParseMessageFailed) == "Parse message failed"
    ensures ToString(ParseMessageFailed) == "2, Parse message failed"
  {
    assert IntToString(2) == "2";
    assert ToString(ParseMessageFailed) == "2" + ", " + "Parse message failed";
  }

  lemma DefaultToString()
    ensures Value(Default) == 100 && Desc(Default) == "default exception"
    ensures ToString(Default) == "100, default exception"
  {
    assert NatToString(1) == "1";
    assert NatToString(10) == "10";
    assert IntToString(100) == "100";
    assert ToString(Default) == "100" + ", " + "default exception";
  }

  /** `P2pException`: its kind and the message passed to `GscException`. */
  datatype P2pException = P2pException(kind: TypeEnum, errMsg: string)

  /** `getType`. */
  function GetType(e: P2pException): TypeEnum {
    e.kind
  }

  /** `getType` returns the kind the exception was constructed with, whatever the message. */
  lemma GetTypeReturnsConstructed(t: TypeEnum, errMsg: string)
    ensures GetType(P2pException(t, errMsg)) == t
    ensures P2pException(t, errMsg).errMsg == errMsg
  {
  }
}
