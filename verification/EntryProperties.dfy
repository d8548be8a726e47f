/** The main results about encoded entries: they parse to the intended tree, and cached
    context agrees with encoding everything at once. */
module EntryProperties {
  import opened Common
  import opened Utf8
  import opened Buffers
  import opened Document
  import opened Namespaces
  import opened Primitives
  import opened Fields
  import opened JsonEncoders
  import T = JsonText

  lemma {:induction false} MeaningOfMembersConcat(a: seq<Member>, b: seq<Member>)
    ensures MeaningOfMembers(a + b) == MeaningOfMembers(a) + MeaningOfMembers(b)
    decreases |a|
  {
    hide Meaning, Runes;
    if a == [] {
      assert a + b == b;
    } else {
      assert (a + b)[1..] == a[1..] + b;
      MeaningOfMembersConcat(a[1..], b);
    }
  }

  /** A JSON member for a primitive that is written only when `present`. */
  function OptionalMember(present: bool, key: Bytes, p: Primitive): seq<T.JMember> {
    if present then [T.JMember(Runes(key), PrimitiveValue(p))] else []
  }

  lemma OptionalMeaning(present: bool, key: Bytes, p: Primitive)
    ensures MeaningOfMembers(Optional(present, key, p)) == OptionalMember(present, key, p)
  {
    hide Meaning, Runes, PrimitiveValue, PrimitiveText;
    if present {
      assert MeaningOfMembers(Optional(present, key, p)[1..]) == [];
    }
  }

  /** The metadata members of an entry as a JSON reader sees them. */
  function MetaJson(cfg: Config, ent: Entry): seq<T.JMember> {
    OptionalMember(cfg.levelKey != [] && cfg.encodeLevel.Some?, cfg.levelKey,
                   EncodedOr(cfg.encodeLevel, ent.level, Str(LevelName(ent.level))))
    + OptionalMember(cfg.timeKey != [] && !ent.time.zero, cfg.timeKey,
                     EncodedOr(cfg.encodeTime, ent.time, Int(ent.time.nanos)))
    + OptionalMember(ent.name != [] && cfg.nameKey != [], cfg.nameKey,
                     EncodedOr(cfg.encodeName, ent.name, Str(ent.name)))
    + CallerJson(cfg, ent)
    + OptionalMember(cfg.messageKey != [], cfg.messageKey, Str(ent.message))
  }

  function CallerJson(cfg: Config, ent: Entry): seq<T.JMember> {
    match ent.caller
    case None => []
    case Some(c) =>
      OptionalMember(cfg.callerKey != [], cfg.callerKey, EncodedOr(cfg.encodeCaller, c, Str(c.path)))
      + OptionalMember(cfg.functionKey != [], cfg.functionKey, Str(c.name))
  }

  lemma CallerMeaning(cfg: Config, c: Caller)
    ensures MeaningOfMembers(CallerMembers(cfg, c))
         == OptionalMember(cfg.callerKey != [], cfg.callerKey, EncodedOr(cfg.encodeCaller, c, Str(c.path)))
            + OptionalMember(cfg.functionKey != [], cfg.functionKey, Str(c.name))
  {
    hide MeaningOfMembers, OptionalMember, Optional;
    MeaningOfMembersConcat(PathMembers(cfg, c), FunctionMembers(cfg, c));
    OptionalMeaning(cfg.callerKey != [], cfg.callerKey, EncodedOr(cfg.encodeCaller, c, Str(c.path)));
    OptionalMeaning(cfg.functionKey != [], cfg.functionKey, Str(c.name));
  }

  lemma MetaMeaning(cfg: Config, ent: Entry)
    ensures MeaningOfMembers(MetaMembers(cfg, ent)) == MetaJson(cfg, ent)
  {
    hide MeaningOfMembers, OptionalMember, Optional, CallerMembers;
    var l, t, n := LevelMembers(cfg, ent), TimeMembers(cfg, ent), NameMembers(cfg, ent);
    var c := match ent.caller case None => [] case Some(c) => CallerMembers(cfg, c);
    var m := Optional(cfg.messageKey != [], cfg.messageKey, Str(ent.message));
    MeaningOfMembersConcat(l, t);
    MeaningOfMembersConcat(l + t, n);
    MeaningOfMembersConcat(l + t + n, c);
    MeaningOfMembersConcat(l + t + n + c, m);
    OptionalMeaning(cfg.levelKey != [] && cfg.encodeLevel.Some?, cfg.levelKey,
                    EncodedOr(cfg.encodeLevel, ent.level, Str(LevelName(ent.level))));
    OptionalMeaning(cfg.timeKey != [] && !ent.time.zero, cfg.timeKey,
                    EncodedOr(cfg.encodeTime, ent.time, Int(ent.time.nanos)));
    OptionalMeaning(ent.name != [] && cfg.nameKey != [], cfg.nameKey,
                    EncodedOr(cfg.encodeName, ent.name, Str(ent.name)));
    OptionalMeaning(cfg.messageKey != [], cfg.messageKey, Str(ent.message));
    if ent.caller.Some? {
      CallerMeaning(cfg, ent.caller.value);
    } else {
      NoMeaning();
    }
  }

  /** The metadata spelled out. With everything configured it is, in this order, level, time,
      name, caller, function and message, each as its encoder appends it. */
  lemma MetadataInFull(cfg: Config, ent: Entry, c: Caller, level: Primitive, time: Primitive, name: Primitive, path: Primitive)
    requires cfg.levelKey != [] && cfg.encodeLevel.Some? && cfg.encodeLevel.value(ent.level) == Some(level)
    requires cfg.timeKey != [] && !ent.time.zero && cfg.encodeTime.Some? && cfg.encodeTime.value(ent.time) == Some(time)
    requires cfg.nameKey != [] && ent.name != [] && cfg.encodeName.Some? && cfg.encodeName.value(ent.name) == Some(name)
    requires ent.caller == Some(c) && cfg.callerKey != [] && cfg.encodeCaller.Some? && cfg.encodeCaller.value(c) == Some(path)
    requires cfg.functionKey != [] && cfg.messageKey != []
    ensures MetaJson(cfg, ent)
         == [T.JMember(Runes(cfg.levelKey), PrimitiveValue(level)), T.JMember(Runes(cfg.timeKey), PrimitiveValue(time)),
             T.JMember(Runes(cfg.nameKey), PrimitiveValue(name)), T.JMember(Runes(cfg.callerKey), PrimitiveValue(path)),
             T.JMember(Runes(cfg.functionKey), T.JString(Runes(c.name))),
             T.JMember(Runes(cfg.messageKey), T.JString(Runes(ent.message)))]
  {
    hide Runes, LevelName;
  }

  function One(present: bool): nat {
    if present then 1 else 0
  }

  /** Each part is there exactly when it is configured and the entry has it, and when its encoder
      is missing or appends nothing, a fallback keeps the object well formed. */
  lemma MetadataParts(cfg: Config, ent: Entry)
    ensures |MetaJson(cfg, ent)| == One(cfg.levelKey != [] && cfg.encodeLevel.Some?) + One(cfg.timeKey != [] && !ent.time.zero)
                                    + One(cfg.nameKey != [] && ent.name != []) + One(ent.caller.Some? && cfg.callerKey != [])
                                    + One(ent.caller.Some? && cfg.functionKey != []) + One(cfg.messageKey != [])
    ensures cfg.levelKey != [] && cfg.encodeLevel.Some? && cfg.encodeLevel.value(ent.level).None? ==>
              MetaJson(cfg, ent)[0] == T.JMember(Runes(cfg.levelKey), T.JString(Runes(LevelName(ent.level))))
    ensures cfg.messageKey != [] ==>
              MetaJson(cfg, ent)[|MetaJson(cfg, ent)| - 1] == T.JMember(Runes(cfg.messageKey), T.JString(Runes(ent.message)))
  {
    hide Runes, LevelName, PrimitiveValue;
    assert PrimitiveValue(Str(ent.message)) == T.JString(Runes(ent.message)) by { StrValue(ent.message); }
    assert PrimitiveValue(Str(LevelName(ent.level))) == T.JString(Runes(LevelName(ent.level))) by { StrValue(LevelName(ent.level)); }
  }

  lemma StrValue(s: Bytes)
    ensures PrimitiveValue(Str(s)) == T.JString(Runes(s))
  {
  }

  /** Every entry is one JSON text. Reading it gives an object whose members are the metadata
      in fixed order, then the fields under the namespaces opened before them, then the stack
      trace back at the top level. */
  lemma EntryParses(cfg: Config, ent: Entry, evs: seq<Event>, spaced: bool)
    ensures T.ReadText(Text(EntryDoc(cfg, ent, evs), spaced))
         == T.Got(T.JObject(MetaJson(cfg, ent) + MeaningOfMembers(Nest(evs))
                            + OptionalMember(ent.stack != [] && cfg.stacktraceKey != [], cfg.stacktraceKey, Str(ent.stack))),
                  [])
  {
    hide MeaningOfMembers, OptionalMember, Optional, MetaMembers, MetaJson, Nest, Text, T.ReadText;
    TextIsJsonText(EntryDoc(cfg, ent, evs), spaced);
    MeaningOfMembersConcat(MetaMembers(cfg, ent) + Nest(evs), StackMembers(cfg, ent));
    MeaningOfMembersConcat(MetaMembers(cfg, ent), Nest(evs));
    MetaMeaning(cfg, ent);
    OptionalMeaning(ent.stack != [] && cfg.stacktraceKey != [], cfg.stacktraceKey, Str(ent.stack));
  }

  /** The members an entry reads as: metadata, the fields under their namespaces, the stack. */
  function EntryMembers(cfg: Config, ent: Entry, evs: seq<Event>): seq<T.JMember> {
    MetaJson(cfg, ent) + MeaningOfMembers(Nest(evs))
    + OptionalMember(ent.stack != [] && cfg.stacktraceKey != [], cfg.stacktraceKey, Str(ent.stack))
  }

  /** The line is a text that reads as exactly this object, followed by nothing if line endings
      are skipped, by a newline if none is configured, and by the configured one otherwise. */
  ghost predicate IsLineFor(line: Bytes, cfg: Config, members: seq<T.JMember>) {
    exists text: Bytes ::
      && T.ReadText(text) == T.Got(T.JObject(members), [])
      && (cfg.skipLineEnding ==> line == text)
      && (!cfg.skipLineEnding && cfg.lineEnding == [] ==> line == text + [0x0A])
      && (!cfg.skipLineEnding && cfg.lineEnding != [] ==> line == text + cfg.lineEnding)
  }

  /** `EncodeEntry` writes one line: the entry as one JSON object, and its ending. */
  method EncodeLine(enc: JsonEncoder, ent: Entry, fs: seq<Field>, ghost ctx: seq<Event>) returns (line: Bytes)
    requires enc.Holds(ctx) && CallerIsEncodable(enc.cfg, ent)
    ensures var text := Text(EntryDoc(enc.cfg, ent, ctx + FieldEvents(enc.cfg, fs)), enc.spaced);
            && (enc.cfg.skipLineEnding ==> line == text)
            && (!enc.cfg.skipLineEnding && enc.cfg.lineEnding == [] ==> line == text + [0x0A])
            && (!enc.cfg.skipLineEnding && enc.cfg.lineEnding != [] ==> line == text + enc.cfg.lineEnding)
    ensures IsLineFor(line, enc.cfg, EntryMembers(enc.cfg, ent, ctx + FieldEvents(enc.cfg, fs)))
  {
    hide FieldEvents, Text, EntryDoc, T.ReadText, MetaJson, MeaningOfMembers, Nest;
    var out := enc.EncodeEntry(ent, fs, ctx);
    EntryParses(enc.cfg, ent, ctx + FieldEvents(enc.cfg, fs), enc.spaced);
    line := out.bs;
  }

  /** Context absorbed by any chain of `With` steps and spliced in pre-serialised gives, byte
      for byte, the line a fresh encoder gives for all the fields at once, including namespaces
      the context leaves open; and that line is the entry as one JSON object with its ending. */
  method CachedContextAgrees(cfg: Config, spaced: bool, chain: seq<seq<Field>>, ent: Entry, fs: seq<Field>)
    returns (cached: Bytes, direct: Bytes)
    requires CallerIsEncodable(cfg, ent)
    ensures cached == direct
    ensures IsLineFor(direct, cfg, EntryMembers(cfg, ent, FieldEvents(cfg, Flatten(chain) + fs)))
  {
    hide FieldEvents, Text, EntryDoc, T.ReadText, EntryMembers, IsLineFor;
    var enc := new JsonEncoder(cfg, spaced);
    assert FieldEvents(cfg, []) == [] by { NoFieldEvents(cfg); }
    for i := 0 to |chain|
      invariant enc.cfg == cfg && enc.spaced == spaced
      invariant enc.Holds(FieldEvents(cfg, Flatten(chain[..i])))
    {
      enc := enc.With(chain[i], FieldEvents(cfg, Flatten(chain[..i])));
      assert chain[..i + 1][..i] == chain[..i];
      FieldEventsConcat(cfg, Flatten(chain[..i]), chain[i]);
    }
    assert chain[..|chain|] == chain;
    cached := EncodeLine(enc, ent, fs, FieldEvents(cfg, Flatten(chain)));
    FieldEventsConcat(cfg, Flatten(chain), fs);

    var plain := new JsonEncoder(cfg, spaced);
    direct := EncodeLine(plain, ent, Flatten(chain) + fs, []);
    assert [] + FieldEvents(cfg, Flatten(chain) + fs) == FieldEvents(cfg, Flatten(chain) + fs);
  }

  lemma NoFieldEvents(cfg: Config)
    ensures FieldEvents(cfg, []) == []
  {
  }
}
