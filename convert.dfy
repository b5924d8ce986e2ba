/** `convert_format`: reading a text in one format and writing the value in
    another, or handing the value back. */
module Convert {
  import opened Text
  import opened Values
  import Colon
  import ColonWriter
  import Pipe
  import ColonRoundTrip
  import PipeRoundTrip

  /** The exceptions a conversion can raise. */
  datatype PyError = ValueError(message: string) | TypeError

  /** What `convert_format` does: return a text, return the value itself,
      raise, or never return (the COLON list reader at the end of its input). */
  datatype Converted = Output(text: string) | Object(value: Value) | Failed(error: PyError) | NeverReturns

  /** The first half of `convert_format`: the value read, or how reading stopped. */
  datatype Read = Got(value: Value) | Stopped(how: Converted)

  /** `'\n'.join(serialize_pipe(obj))`. */
  function PipeText(obj: Value): string
  {
    Join(Pipe.RenderAll(Pipe.Layout(obj, 0)), "\n")
  }

  /** Reading `data` in the format named `fromFormat`. */
  function ReadFormat(data: string, fromFormat: string): (r: Read)
    ensures r.Got? ==> fromFormat in {"COLON", "PIPE"}
  {
    if fromFormat == "COLON" then
      match Colon.Document(data)
      case Parsed(v) => Got(v)
      case Loops => Stopped(NeverReturns)
    else if fromFormat == "PIPE" then
      match Pipe.PipeDocument(data)
      case PipeOk(v) => Got(v)
      case PipeTypeError => Stopped(Failed(TypeError))
    else Stopped(Failed(ValueError("Unsupported from_format")))
  }

  /** Writing `obj` in the format named `toFormat`. */
  function WriteFormat(obj: Value, toFormat: string): (r: Converted)
    ensures r.Output? || r.Object? || r == Failed(ValueError("Unsupported to_format"))
  {
    if toFormat == "COLON" then Output(ColonWriter.SerializeColon(obj))
    else if toFormat == "PIPE" then Output(PipeText(obj))
    else if toFormat == "OBJ" then Object(obj)
    else Failed(ValueError("Unsupported to_format"))
  }

  /** `convert_format(data_str, from_format, to_format)`. */
  function ConvertFormat(data: string, fromFormat: string, toFormat: string): Converted
  {
    match ReadFormat(data, fromFormat)
    case Stopped(how) => how
    case Got(obj) => WriteFormat(obj, toFormat)
  }

  /** An unknown source format raises before anything is read, whatever the target. */
  lemma UnknownSource(data: string, fromFormat: string, toFormat: string)
    requires fromFormat != "COLON" && fromFormat != "PIPE"
    ensures ConvertFormat(data, fromFormat, toFormat) == Failed(ValueError("Unsupported from_format"))
  {
  }

  /** An unknown target format raises exactly when reading succeeded. */
  lemma UnknownTarget(data: string, fromFormat: string, toFormat: string)
    requires toFormat !in {"COLON", "PIPE", "OBJ"}
    ensures ConvertFormat(data, fromFormat, toFormat) == Failed(ValueError("Unsupported to_format"))
      <==> ReadFormat(data, fromFormat).Got?
  {
    var r := ReadFormat(data, fromFormat);
    if r.Stopped? {
      assert ConvertFormat(data, fromFormat, toFormat) == r.how;
      assert r.how == NeverReturns || r.how == Failed(TypeError) || r.how == Failed(ValueError("Unsupported from_format"));
    }
  }

  /** `'OBJ'` hands back the value read; `'PIPE'` joins the written lines. */
  lemma Targets(data: string, fromFormat: string, v: Value)
    requires ReadFormat(data, fromFormat) == Got(v)
    ensures ConvertFormat(data, fromFormat, "OBJ") == Object(v)
    ensures ConvertFormat(data, fromFormat, "PIPE") == Output(Join(Pipe.RenderAll(Pipe.Layout(v, 0)), "\n"))
    ensures ConvertFormat(data, fromFormat, "COLON") == Output(ColonWriter.SerializeColon(v))
  {
  }

  /** A round-trippable dict written in COLON reads back as itself. */
  lemma ColonToObject(m: Value)
    requires m.Map? && ColonRoundTrip.ColonSafe(m)
    ensures ConvertFormat(ColonWriter.SerializeColon(m), "COLON", "OBJ") == Object(m)
  {
    ColonRoundTrip.ColonRoundTrip(m);
  }

  /** A surviving dict or list written in PIPE reads back as itself. */
  lemma PipeToObject(m: Value)
    requires (m.Map? || m.List?) && PipeRoundTrip.PipeGood(m)
    ensures ConvertFormat(PipeText(m), "PIPE", "OBJ") == Object(m)
  {
    PipeRoundTrip.PipeRoundTrip(m);
  }

  /** COLON to PIPE and back to COLON gives the COLON text of the value read,
      when that value survives PIPE. */
  lemma ColonPipeColon(s: string, m: Value)
    requires Colon.Document(s) == Colon.Parsed(m) && PipeRoundTrip.PipeGood(m)
    ensures ConvertFormat(s, "COLON", "PIPE") == Output(PipeText(m))
    ensures ConvertFormat(PipeText(m), "PIPE", "COLON") == Output(ColonWriter.SerializeColon(m))
  {
    PipeRoundTrip.PipeRoundTrip(m);
  }

  /** `convert_format` run with the parsers and the line writer. Reading COLON
      needs a text the parser finishes on. */
  method ConvertWith(data: string, fromFormat: string, toFormat: string) returns (r: Converted)
    requires fromFormat == "COLON" ==> Colon.Document(data).Parsed?
    ensures r == ConvertFormat(data, fromFormat, toFormat)
  {
    var obj: Value;
    if fromFormat == "COLON" {
      obj := Colon.ParseColonFormat(data);
    } else if fromFormat == "PIPE" {
      var p := Pipe.ParsePipeFormat(data);
      if p.PipeTypeError? {
        return Failed(TypeError);
      }
      obj := p.value;
    } else {
      return Failed(ValueError("Unsupported from_format"));
    }
    if toFormat == "COLON" {
      r := Output(ColonWriter.SerializeColon(obj));
    } else if toFormat == "PIPE" {
      var lines := Pipe.SerializePipe(obj, 0);
      r := Output(Join(lines, "\n"));
    } else if toFormat == "OBJ" {
      r := Object(obj);
    } else {
      r := Failed(ValueError("Unsupported to_format"));
    }
  }
}
