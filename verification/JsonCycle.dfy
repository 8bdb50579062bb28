/** The printers, the minifier and the parser one after the other on memory: the tree comes back. */
module JsonCycle {
  import opened CText
  import opened JsonTree
  import opened JsonNodes
  import Buffer = JsonBuffer
  import Lex = JsonLexed
  import Minifier = JsonMinify
  import Parsing = JsonParser
  import Plain = JsonPlain
  import PowerOfTwo
  import Trip = JsonRoundTrip

  /** Parses the string at the start of the memory. */
  method ParseMemory(out: array<Byte>, whole: bool, ghost j: Json, ghost fmt: bool)
    returns (p: Parsing.Parser, end: int, ghost b: Built)
    requires Printable(j) && Plain.Holds(out, Print(j, 0, fmt))
    ensures fresh(p) && end == |Print(j, 0, fmt)|
    ensures b.at == 0 && Represents(p.nodes, b) && Erase(b) == j
  {
    hide Print, Printable, Represents, Within;
    ghost var x := Print(j, 0, fmt);
    var n := Plain.Strlen(out, x);
    p := new Parsing.Parser(out[..n]);
    Lex.WholePrintLexed(j, fmt);
    Trip.RoundTrip(j, fmt, whole);
    end, b := p.Parse(whole);
  }

  /** cJSON_Print or cJSON_PrintUnformatted, then cJSON_ParseWithOpts: all the text is consumed, and the
      nodes built spell out the tree that was printed, with consistent links. */
  method PrintThenParse(j: Json, fmt: bool, whole: bool) returns (p: Parsing.Parser, end: int, ghost b: Built)
    requires Printable(j)
    ensures fresh(p) && end == |Print(j, 0, fmt)|
    ensures b.at == 0 && Represents(p.nodes, b) && Erase(b) == j
  {
    hide Print, Printable, Represents;
    var out := Plain.PrintValue(j, 0, fmt);
    p, end, b := ParseMemory(out, whole, j, fmt);
  }

  /** The same through cJSON_PrintBuffered. */
  method PrintBufferedThenParse(j: Json, prebuffer: nat, fmt: bool, whole: bool)
    returns (p: Parsing.Parser, end: int, ghost b: Built)
    requires Printable(j) && prebuffer > 0 && |Print(j, 0, fmt)| + Buffer.SLACK <= PowerOfTwo.LIMIT
    ensures fresh(p) && end == |Print(j, 0, fmt)|
    ensures b.at == 0 && Represents(p.nodes, b) && Erase(b) == j
  {
    hide Print, Printable, Represents;
    Buffer.PrintZeroFree(j, 0, fmt);
    var out := Buffer.PrintBuffered(j, prebuffer, fmt);
    p, end, b := ParseMemory(out, whole, j, fmt);
  }

  /** cJSON_Print, then cJSON_Minify in the same memory, then the parser: the text shrinks to the
      unformatted print, and the tree is the same. */
  method PrintMinifyParse(j: Json, whole: bool) returns (p: Parsing.Parser, end: int, ghost b: Built)
    requires Printable(j)
    ensures fresh(p) && end == |Print(j, 0, false)|
    ensures b.at == 0 && Represents(p.nodes, b) && Erase(b) == j
  {
    hide Print, Printable, Represents, Minifier.Minified;
    Buffer.PrintZeroFree(j, 0, true);
    Buffer.PrintZeroFree(j, 0, false);
    Minifier.MinifyCommutes(j);
    Minifier.ClosedExactly(Print(j, 0, true), 0);
    var out := Plain.PrintValue(j, 0, true);
    var n := Minifier.Minify(out, Print(j, 0, true));
    assert out[..n + 1] == Print(j, 0, false) + [0];
    p, end, b := ParseMemory(out, whole, j, false);
  }
}
