/** The structured context at the end of a console line. */
module ConsoleEncoder {
  import opened Common
  import opened Utf8
  import opened Buffers
  import opened Document
  import opened Namespaces
  import opened Fields
  import opened JsonEncoders
  import T = JsonText

  /** `writeContext`: nothing without context and fields; otherwise, namespaces closed, one
      object, after a separator if and only if the line already has text. */
  method WriteContext(enc: JsonEncoder, line: Buffer, extra: seq<Field>, separator: Bytes, ghost ctx: seq<Event>)
    requires enc.Holds(ctx) && enc.buf != line
    modifies line
    ensures var evs, was := ctx + FieldEvents(enc.cfg, extra), old(line.bs);
            && (evs == [] ==> line.bs == was)
            && (evs != [] && was == [] ==> line.bs == Text(Object(Nest(evs)), enc.spaced))
            && (evs != [] && was != [] ==> line.bs == was + separator + Text(Object(Nest(evs)), enc.spaced))
    ensures enc.Holds(ctx)
  {
    hide EventsText, Opens, FieldEvents, Nest, MembersText, Text, Braces;
    ghost var evs := ctx + FieldEvents(enc.cfg, extra);
    var context := enc.With(extra, ctx);
    context.CloseOpenNamespaces();
    FlatLayoutIsTreeLayout(evs, enc.spaced, true);
    SomeText(evs, enc.spaced);
    if |context.buf.bs| == 0 {
      return;
    }
    if |line.bs| > 0 {
      line.AppendBytes(separator);
    }
    ghost var before := line.bs;
    line.AppendByte(T.LBRACE);
    line.AppendBytes(context.buf.bs);
    line.AppendByte(T.RBRACE);
    JsonEncoder.ObjectText(Nest(evs), enc.spaced);
    assert line.bs == before + Text(Object(Nest(evs)), enc.spaced);
  }

  lemma SomeText(evs: seq<Event>, spaced: bool)
    ensures EventsText(evs, spaced, true) + Braces(Opens(evs)) == [] <==> evs == []
  {
    hide EventsText;
    SplicedContext(evs, spaced, true);
    if evs == [] {
      assert Opens(evs) == 0;
    }
  }

  /** The object on a console line reads back as the members the fields mean. */
  lemma ContextIsJson(evs: seq<Event>, spaced: bool)
    ensures T.ReadText(Text(Object(Nest(evs)), spaced)) == T.Got(T.JObject(MeaningOfMembers(Nest(evs))), [])
  {
    hide Text, T.ReadText;
    TextIsJsonText(Object(Nest(evs)), spaced);
  }
}
