/**
  The slog handler: groups are remembered and turned into namespaces only when a field
  arrives. Proved against opening every group eagerly.
 */
module SlogHandler {
  import opened Common
  import opened Utf8
  import opened Document
  import opened Namespaces
  import opened Primitives
  import opened Fields
  import T = JsonText

  datatype Attr = Attr(key: Bytes, value: AttrValue)

  datatype AttrValue =
    | AnyNil
    | Scalar(v: Value)
    | GroupValue(attrs: seq<Attr>)
    | LogValuer(resolved: AttrValue)

  /** `convertAttrToField`. */
  function Convert(a: Attr): (f: Field)
    ensures !f.Namespace?
    decreases a.value, 1
  {
    if a.key == [] && a.value.AnyNil? then Skip
    else match a.value
      case AnyNil => KeyValue(a.key, Reflected(Nil))
      case Scalar(v) => KeyValue(a.key, v)
      case GroupValue(attrs) =>
        if a.key == [] then Inline([], GroupMarshaler(attrs)) else KeyValue(a.key, ObjectOf(GroupMarshaler(attrs)))
      case LogValuer(r) => Convert(Attr(a.key, r))
  }

  /** `groupObject.MarshalLogObject` adds each attribute and never fails. */
  function GroupMarshaler(attrs: seq<Attr>): ObjectMarshaler
    decreases attrs, 0
  {
    ObjectMarshaler(seq(|attrs|, i requires 0 <= i < |attrs| => ConvertedCall(attrs[i])), None)
  }

  function ConvertedCall(a: Attr): Call
    decreases a, 2
  {
    AddTo(Convert(a))
  }

  function ConvertAll(attrs: seq<Attr>): seq<Field> {
    if attrs == [] then [] else ConvertAll(attrs[..|attrs| - 1]) + [Convert(attrs[|attrs| - 1])]
  }

  /** A handler: the fields given to its core so far, and the groups not yet applied. */
  datatype Handler = Handler(context: seq<Field>, groups: seq<Bytes>)

  /** The namespace fields for a list of groups. */
  function PendingFields(groups: seq<Bytes>): seq<Field> {
    if groups == [] then [] else PendingFields(groups[..|groups| - 1]) + [Namespace(groups[|groups| - 1])]
  }

  /** The stream without its no-op fields. */
  function NoSkips(fs: seq<Field>): seq<Field> {
    if fs == [] then [] else NoSkips(fs[..|fs| - 1]) + if fs[|fs| - 1].Skip? then [] else [fs[|fs| - 1]]
  }

  /** The stream without the namespaces at its end. */
  function Trim(fs: seq<Field>): seq<Field> {
    if fs != [] && fs[|fs| - 1].Namespace? then Trim(fs[..|fs| - 1]) else fs
  }

  predicate EndsInField(fs: seq<Field>) {
    fs == [] || !fs[|fs| - 1].Namespace?
  }

  lemma {:induction false} NoSkipsConcat(a: seq<Field>, b: seq<Field>)
    ensures NoSkips(a + b) == NoSkips(a) + NoSkips(b)
    decreases |b|
  {
    if b == [] {
      assert a + b == a;
    } else {
      var n := |b| - 1;
      var last := if b[n].Skip? then [] else [b[n]];
      NoSkipsConcat(a, b[..n]);
      assert (a + b)[..|a + b| - 1] == a + b[..n];
      assert NoSkips(a) + NoSkips(b[..n]) + last == NoSkips(a) + (NoSkips(b[..n]) + last);
    }
  }

  lemma {:induction false} NamespacesKept(groups: seq<Bytes>)
    ensures NoSkips(PendingFields(groups)) == PendingFields(groups)
    decreases |groups|
  {
    if groups != [] {
      var n := |groups| - 1;
      NamespacesKept(groups[..n]);
      NoSkipsConcat(PendingFields(groups[..n]), [Namespace(groups[n])]);
    }
  }

  lemma {:induction false} TrimPending(fs: seq<Field>, groups: seq<Bytes>)
    requires EndsInField(fs)
    ensures Trim(fs + PendingFields(groups)) == fs
    decreases |groups|
  {
    if groups == [] {
      assert fs + PendingFields(groups) == fs;
    } else {
      var n := |groups| - 1;
      var all := fs + PendingFields(groups);
      TrimPending(fs, groups[..n]);
      assert all[..|all| - 1] == fs + PendingFields(groups[..n]);
    }
  }

  // ---------------------------------------------------------------- handlers

  /** `appendGroups`. */
  method AppendGroups(groups: seq<Bytes>, fields0: seq<Field>) returns (fields: seq<Field>)
    ensures fields == fields0 + PendingFields(groups)
  {
    fields := fields0;
    for i := 0 to |groups|
      invariant fields == fields0 + PendingFields(groups[..i])
    {
      fields := fields + [Namespace(groups[i])];
      assert groups[..i + 1][..i] == groups[..i];
    }
    assert groups[..|groups|] == groups;
  }

  /** The loop that `Handle` and `WithAttrs` share: attributes become fields, and the pending
      groups go in front of the first that is not a no-op. */
  method FieldsFor(groups: seq<Bytes>, attrs: seq<Attr>) returns (fields: seq<Field>, addedNamespace: bool)
    ensures NoSkips(fields) == (if addedNamespace then PendingFields(groups) else []) + NoSkips(ConvertAll(attrs))
    ensures addedNamespace ==> groups != []
    ensures !addedNamespace && groups != [] ==> NoSkips(ConvertAll(attrs)) == []
    ensures addedNamespace ==> NoSkips(ConvertAll(attrs)) != []
    ensures EndsInField(NoSkips(ConvertAll(attrs)))
  {
    hide Convert, ConvertAll, NoSkips, PendingFields;
    fields, addedNamespace := [], false;
    NoFields();
    assert ConvertAll(attrs[..0]) == [] by { NothingConverted(); }
    for i := 0 to |attrs|
      invariant NoSkips(fields) == (if addedNamespace then PendingFields(groups) else []) + NoSkips(ConvertAll(attrs[..i]))
      invariant addedNamespace ==> groups != [] && NoSkips(ConvertAll(attrs[..i])) != []
      invariant !addedNamespace && groups != [] ==> NoSkips(ConvertAll(attrs[..i])) == []
      invariant EndsInField(NoSkips(ConvertAll(attrs[..i])))
    {
      var f := Convert(attrs[i]);
      ConvertAllStep(attrs, i);
      NoSkipsConcat(ConvertAll(attrs[..i]), [f]);
      OneField(f);
      if !addedNamespace && |groups| > 0 && f != Skip {
        ghost var before := fields;
        fields := AppendGroups(groups, fields);
        NoSkipsConcat(before, PendingFields(groups));
        NamespacesKept(groups);
        addedNamespace := true;
      }
      NoSkipsConcat(fields, [f]);
      fields := fields + [f];
    }
    assert attrs[..|attrs|] == attrs;
  }

  lemma NothingConverted()
    ensures ConvertAll([]) == []
  {
  }

  lemma ConvertAllStep(attrs: seq<Attr>, i: nat)
    requires i < |attrs|
    ensures ConvertAll(attrs[..i + 1]) == ConvertAll(attrs[..i]) + [Convert(attrs[i])]
  {
    hide Convert;
    assert attrs[..i + 1][..i] == attrs[..i];
  }

  lemma OneField(f: Field)
    ensures NoSkips([f]) == if f.Skip? then [] else [f]
  {
    assert [f][..0] == [];
    assert NoSkips([f][..0]) == [];
  }

  /** What a handler has emitted, followed by the namespaces it owes. */
  function Owed(h: Handler): seq<Field> {
    NoSkips(h.context) + PendingFields(h.groups)
  }

  method WithAttrs(h: Handler, attrs: seq<Attr>) returns (r: Handler)
    requires EndsInField(NoSkips(h.context))
    ensures EndsInField(NoSkips(r.context))
    ensures Owed(r) == Owed(h) + NoSkips(ConvertAll(attrs))
  {
    hide ConvertAll, NoSkips;
    var fields, addedNamespace := FieldsFor(h.groups, attrs);
    r := Handler(h.context + fields, if addedNamespace then [] else h.groups);
    NoSkipsConcat(h.context, fields);
    assert NoSkips([]) == [] by { NoFields(); }
  }

  lemma NoFields()
    ensures NoSkips([]) == []
  {
  }

  function WithGroup(h: Handler, group: Bytes): Handler {
    h.(groups := h.groups + [group])
  }

  lemma GroupOwed(h: Handler, group: Bytes)
    ensures Owed(WithGroup(h, group)) == Owed(h) + [Namespace(group)]
  {
    assert (h.groups + [group])[..|h.groups|] == h.groups;
  }

  /** `Handle`: all that the core receives for one record. */
  method Handle(h: Handler, attrs: seq<Attr>) returns (stream: seq<Field>)
    requires EndsInField(NoSkips(h.context))
    ensures NoSkips(stream) == Trim(Owed(h) + NoSkips(ConvertAll(attrs)))
  {
    hide ConvertAll, NoSkips;
    var fields, addedNamespace := FieldsFor(h.groups, attrs);
    stream := h.context + fields;
    NoSkipsConcat(h.context, fields);
    if addedNamespace || h.groups == [] {
      assert NoSkips(stream) == Owed(h) + NoSkips(ConvertAll(attrs));
      TrimPending(NoSkips(stream), []);
      assert NoSkips(stream) + PendingFields([]) == NoSkips(stream);
    } else {
      TrimPending(NoSkips(h.context), h.groups);
      assert Owed(h) + [] == Owed(h);
    }
  }

  // ------------------------------------------------------------------ chains

  datatype Op = Group(name: Bytes) | Attrs(attrs: seq<Attr>)

  /** What the calls give a handler, one by one. */
  datatype Item = Named(group: Bytes) | Given(attr: Attr)

  function GivenAll(attrs: seq<Attr>): seq<Item> {
    if attrs == [] then [] else GivenAll(attrs[..|attrs| - 1]) + [Given(attrs[|attrs| - 1])]
  }

  function ItemsOf(ops: seq<Op>): seq<Item> {
    if ops == [] then []
    else ItemsOf(ops[..|ops| - 1])
         + match ops[|ops| - 1] case Group(g) => [Named(g)] case Attrs(list) => GivenAll(list)
  }

  function ItemField(it: Item): Field {
    match it case Named(g) => Namespace(g) case Given(a) => Convert(a)
  }

  /** The stream of a handler that opens every group at once. */
  function EagerStream(items: seq<Item>): seq<Field> {
    if items == [] then [] else EagerStream(items[..|items| - 1]) + [ItemField(items[|items| - 1])]
  }

  lemma {:induction false} EagerConcat(a: seq<Item>, b: seq<Item>)
    ensures EagerStream(a + b) == EagerStream(a) + EagerStream(b)
    decreases |b|
  {
    hide ItemField;
    if b == [] {
      assert a + b == a;
    } else {
      EagerConcat(a, b[..|b| - 1]);
      assert (a + b)[..|a + b| - 1] == a + b[..|b| - 1];
    }
  }

  lemma {:induction false} EagerGiven(attrs: seq<Attr>)
    ensures EagerStream(GivenAll(attrs)) == ConvertAll(attrs)
    decreases |attrs|
  {
    hide Convert;
    if attrs != [] {
      var n := |attrs| - 1;
      EagerGiven(attrs[..n]);
      assert GivenAll(attrs)[..|GivenAll(attrs)| - 1] == GivenAll(attrs[..n]);
    }
  }

  // --------------------------------------------------------- attribute trees

  /** The members an attribute stands for: a named group is an object, even an empty one,
      though slog's own rules drop it; an unnamed group is spliced in place; an empty
      attribute is nothing. */
  function AttrMembers(cfg: Config, a: Attr): seq<Member>
    decreases a.value, 1
  {
    match a.value
    case AnyNil => LiteralsAreJson(); if a.key == [] then [] else [Member(a.key, Leaf(T.NULL))]
    case Scalar(v) => Nest(OneCallEvents(cfg, AddTo(KeyValue(a.key, v))))
    case GroupValue(attrs) =>
      if a.key == [] then GroupMembers(cfg, attrs) else [Member(a.key, Object(GroupMembers(cfg, attrs)))]
    case LogValuer(r) => AttrMembers(cfg, Attr(a.key, r))
  }

  function GroupMembers(cfg: Config, attrs: seq<Attr>): seq<Member>
    decreases attrs, 0
  {
    if attrs == [] then [] else GroupMembers(cfg, attrs[..|attrs| - 1]) + EntryMembers(cfg, attrs[|attrs| - 1])
  }

  function EntryMembers(cfg: Config, a: Attr): seq<Member>
    decreases a, 2
  {
    AttrMembers(cfg, a)
  }

  /** Converting an attribute keeps its meaning: the field written for it is the tree of the
      attribute, whatever groups and log valuers it is made of, and it leaves no namespace
      open. */
  lemma {:induction false} ConvertKeepsMeaning(cfg: Config, a: Attr)
    ensures OnlyPuts(OneCallEvents(cfg, AddTo(Convert(a))))
    ensures Nest(OneCallEvents(cfg, AddTo(Convert(a)))) == AttrMembers(cfg, a)
    decreases a.value, 1
  {
    match a.value
    case AnyNil =>
      if a.key != [] {
        hide Nest;
        OneNested(a.key, Leaf(T.NULL));
      }
    case Scalar(v) =>
    case GroupValue(attrs) =>
      GroupKeepsMeaning(cfg, attrs);
      var evs := CallEvents(cfg, GroupMarshaler(attrs).calls);
      assert evs + [] == evs;
      if a.key != [] {
        hide Nest;
        OneNested(a.key, Object(Nest(evs)));
        assert ValueDoc(cfg, ObjectOf(GroupMarshaler(attrs))) == Some(Object(Nest(evs)));
        assert Convert(a) == KeyValue(a.key, ObjectOf(GroupMarshaler(attrs)));
        assert AddEvents(cfg, Convert(a)) == [Put(a.key, Object(Nest(evs)))];
      }
    case LogValuer(r) => ConvertKeepsMeaning(cfg, Attr(a.key, r));
  }

  lemma {:induction false} GroupKeepsMeaning(cfg: Config, attrs: seq<Attr>)
    ensures var evs := CallEvents(cfg, GroupMarshaler(attrs).calls); OnlyPuts(evs) && Nest(evs) == GroupMembers(cfg, attrs)
    decreases attrs, 0
  {
    hide Convert, OneCallEvents, AttrMembers, Nest;
    if attrs == [] {
      assert GroupMarshaler(attrs).calls == [];
      assert Nest([]) == [] by { NothingNested(); }
    } else {
      var n := |attrs| - 1;
      GroupKeepsMeaning(cfg, attrs[..n]);
      assert GroupMarshaler(attrs).calls[..n] == GroupMarshaler(attrs[..n]).calls;
      EntryKeepsMeaning(cfg, attrs[n]);
      NestOfPuts(CallEvents(cfg, GroupMarshaler(attrs[..n]).calls), OneCallEvents(cfg, ConvertedCall(attrs[n])));
    }
  }

  lemma NothingNested()
    ensures Nest([]) == []
  {
  }

  lemma {:induction false} EntryKeepsMeaning(cfg: Config, a: Attr)
    ensures OnlyPuts(OneCallEvents(cfg, ConvertedCall(a)))
    ensures Nest(OneCallEvents(cfg, ConvertedCall(a))) == EntryMembers(cfg, a)
    decreases a, 2
  {
    hide Convert, OneCallEvents, Nest;
    ConvertKeepsMeaning(cfg, a);
  }

  // -------------------------------------------------------- empty namespaces

  /** The attribute puts something in the output: an unnamed group only does if one of its
      own attributes does. */
  predicate Visible(a: Attr)
    decreases a.value, 1
  {
    match a.value
    case AnyNil => a.key != []
    case Scalar(v) => true
    case GroupValue(attrs) => a.key != [] || VisibleIn(attrs)
    case LogValuer(r) => Visible(Attr(a.key, r))
  }

  predicate VisibleIn(attrs: seq<Attr>)
    decreases attrs, 0
  {
    exists i | 0 <= i < |attrs| :: VisibleMember(attrs[i])
  }

  predicate VisibleMember(a: Attr)
    decreases a, 2
  {
    Visible(a)
  }

  /** An attribute writes something, be it only the error of a failed reflection, exactly when
      it is visible. */
  lemma {:induction false} VisibleMeansEvents(cfg: Config, a: Attr)
    ensures OneCallEvents(cfg, AddTo(Convert(a))) != [] <==> Visible(a)
    decreases a.value, 1
  {
    match a.value
    case GroupValue(attrs) =>
      if a.key == [] {
        GroupEvents(cfg, attrs);
        assert AddEvents(cfg, Convert(a)) == CallEvents(cfg, GroupMarshaler(attrs).calls);
      } else {
        AlwaysWrites(cfg, a.key, ObjectOf(GroupMarshaler(attrs)));
      }
    case LogValuer(r) => VisibleMeansEvents(cfg, Attr(a.key, r));
    case Scalar(v) => AlwaysWrites(cfg, a.key, v);
    case AnyNil => AlwaysWrites(cfg, a.key, Reflected(Nil));
  }

  /** A value writes its member, or else the error that kept it from doing so. */
  lemma AlwaysWrites(cfg: Config, key: Bytes, v: Value)
    ensures OneCallEvents(cfg, AddTo(KeyValue(key, v))) != []
  {
    if ValueDoc(cfg, v).None? {
      assert v.Reflected? && v.r.Failed?;
      assert ErrorEvents(KeyValue(key, v)) != [];
    } else {
      assert AddEvents(cfg, KeyValue(key, v)) == [Put(key, ValueDoc(cfg, v).value)];
    }
  }

  lemma {:induction false} GroupEvents(cfg: Config, attrs: seq<Attr>)
    ensures CallEvents(cfg, GroupMarshaler(attrs).calls) != [] <==> VisibleIn(attrs)
    decreases attrs, 0
  {
    hide OneCallEvents, Convert, ConvertedCall, VisibleIn, VisibleMember;
    if attrs == [] {
      assert GroupMarshaler(attrs).calls == [];
      NothingVisible();
    } else {
      var n := |attrs| - 1;
      GroupEvents(cfg, attrs[..n]);
      assert GroupMarshaler(attrs).calls[..n] == GroupMarshaler(attrs[..n]).calls;
      MemberEvents(cfg, attrs[n]);
      VisibleInLast(attrs);
    }
  }

  lemma NothingVisible()
    ensures !VisibleIn([])
  {
  }

  lemma VisibleInLast(attrs: seq<Attr>)
    requires attrs != []
    ensures var n := |attrs| - 1; VisibleIn(attrs) <==> VisibleIn(attrs[..n]) || VisibleMember(attrs[n])
  {
    hide VisibleMember;
    var n := |attrs| - 1;
    if VisibleIn(attrs[..n]) {
      var i :| 0 <= i < n && VisibleMember(attrs[..n][i]);
      assert VisibleMember(attrs[i]);
    }
    if VisibleIn(attrs) && !VisibleMember(attrs[n]) {
      var i :| 0 <= i < |attrs| && VisibleMember(attrs[i]);
      assert VisibleMember(attrs[..n][i]);
    }
  }

  lemma {:induction false} MemberEvents(cfg: Config, a: Attr)
    ensures OneCallEvents(cfg, ConvertedCall(a)) != [] <==> VisibleMember(a)
    decreases a, 2
  {
    hide OneCallEvents, Convert;
    VisibleMeansEvents(cfg, a);
  }

  /** The stream ends with a namespace just opened. */
  predicate EndsOpen(evs: seq<Event>) {
    evs != [] && evs[|evs| - 1].Open?
  }

  /** Nothing visible is given after item `g`. */
  predicate QuietAfter(items: seq<Item>, g: nat) {
    forall k | g < k < |items| :: items[k].Given? ==> !Visible(items[k].attr)
  }

  /** Some group has nothing visible after it. */
  predicate HasQuietGroup(items: seq<Item>) {
    exists g | 0 <= g < |items| :: items[g].Named? && QuietAfter(items, g)
  }

  /** The attribute is not a no-op, so it makes the handler open the groups before it. */
  predicate Present(it: Item) {
    it.Given? && !Convert(it.attr).Skip?
  }

  predicate PresentAfter(items: seq<Item>, g: nat) {
    exists k | g < k < |items| :: Present(items[k])
  }

  /** Some group has an attribute after it that is not a no-op, and nothing visible. */
  predicate OpensEmptyGroup(items: seq<Item>) {
    exists g | 0 <= g < |items| :: items[g].Named? && QuietAfter(items, g) && PresentAfter(items, g)
  }

  lemma QuietStep(items: seq<Item>, it: Item, g: nat)
    requires g < |items|
    ensures QuietAfter(items + [it], g) <==> QuietAfter(items, g) && (it.Given? ==> !Visible(it.attr))
    ensures PresentAfter(items + [it], g) <==> PresentAfter(items, g) || Present(it)
  {
    hide Visible, Present;
    var all := items + [it];
    assert all[|items|] == it && forall k | 0 <= k < |items| :: all[k] == items[k];
    if PresentAfter(items, g) {
      var k :| g < k < |items| && Present(items[k]);
      assert Present(all[k]);
    }
  }

  lemma GroupsStep(items: seq<Item>, it: Item)
    ensures HasQuietGroup(items + [it]) <==> it.Named? || (HasQuietGroup(items) && !Visible(it.attr))
    ensures OpensEmptyGroup(items + [it]) <==>
              if it.Named? then OpensEmptyGroup(items)
              else !Visible(it.attr) && (OpensEmptyGroup(items) || (Present(it) && HasQuietGroup(items)))
  {
    hide QuietAfter, PresentAfter, Visible, Present;
    var all := items + [it];
    assert all[|items|] == it;
    forall g | 0 <= g < |items|
      ensures QuietAfter(all, g) <==> QuietAfter(items, g) && (it.Given? ==> !Visible(it.attr))
      ensures PresentAfter(all, g) <==> PresentAfter(items, g) || Present(it)
    {
      QuietStep(items, it, g);
    }
    NothingAfterLast(all);
    if HasQuietGroup(items) {
      var g :| 0 <= g < |items| && items[g].Named? && QuietAfter(items, g);
      assert all[g].Named?;
    }
    if OpensEmptyGroup(items) {
      var g :| 0 <= g < |items| && items[g].Named? && QuietAfter(items, g) && PresentAfter(items, g);
      assert all[g].Named?;
    }
    assert Present(it) ==> it.Given? by { PresentIsGiven(it); }
  }

  lemma PresentIsGiven(it: Item)
    ensures Present(it) ==> it.Given?
  {
  }

  lemma NothingAfterLast(items: seq<Item>)
    requires items != []
    ensures QuietAfter(items, |items| - 1) && !PresentAfter(items, |items| - 1)
  {
  }

  lemma {:induction false} SkipsMeanNothing(cfg: Config, fs: seq<Field>)
    ensures FieldEvents(cfg, NoSkips(fs)) == FieldEvents(cfg, fs)
    decreases |fs|
  {
    hide OneCallEvents;
    if fs != [] {
      var n := |fs| - 1;
      SkipsMeanNothing(cfg, fs[..n]);
      SkipEvents(cfg);
      if fs[n].Skip? {
        assert NoSkips(fs) == NoSkips(fs[..n]);
        assert FieldEvents(cfg, fs[..n]) + [] == FieldEvents(cfg, fs[..n]);
      } else {
        assert NoSkips(fs) == NoSkips(fs[..n]) + [fs[n]];
        assert NoSkips(fs)[..|NoSkips(fs)| - 1] == NoSkips(fs[..n]);
      }
    }
  }

  lemma SkipEvents(cfg: Config)
    ensures OneCallEvents(cfg, AddTo(Skip)) == []
  {
  }

  lemma NamespaceEvents(cfg: Config, group: Bytes)
    ensures OneCallEvents(cfg, AddTo(Namespace(group))) == [Open(group)]
  {
  }

  /** What one item adds: an opened namespace, or members unless it is invisible. */
  lemma ItemEvents(cfg: Config, it: Item)
    ensures var evs := OneCallEvents(cfg, AddTo(ItemField(it)));
            if it.Named? then evs == [Open(it.group)] else OnlyPuts(evs) && (evs != [] <==> Visible(it.attr))
    ensures it.Given? && !Present(it) ==> !Visible(it.attr)
  {
    hide Convert, OneCallEvents, Visible;
    match it
    case Named(g) => NamespaceEvents(cfg, g);
    case Given(a) =>
      ConvertKeepsMeaning(cfg, a);
      VisibleMeansEvents(cfg, a);
      SkipEvents(cfg);
  }

  lemma EventsStep(cfg: Config, fs: seq<Field>, it: Item)
    ensures var evs := FieldEvents(cfg, fs);
            EndsOpen(FieldEvents(cfg, fs + [ItemField(it)])) <==> it.Named? || (EndsOpen(evs) && !Visible(it.attr))
  {
    hide OneCallEvents, ItemField, Visible, Present;
    assert (fs + [ItemField(it)])[..|fs|] == fs;
    ItemEvents(cfg, it);
  }

  lemma {:induction false} EagerEndsOpen(cfg: Config, items: seq<Item>)
    ensures EndsOpen(FieldEvents(cfg, EagerStream(items))) <==> HasQuietGroup(items)
    decreases |items|
  {
    hide HasQuietGroup, OpensEmptyGroup, FieldEvents, ItemField, Visible, EndsOpen;
    if items == [] {
      NoItems(cfg);
    } else {
      var n := |items| - 1;
      EagerEndsOpen(cfg, items[..n]);
      EventsStep(cfg, EagerStream(items[..n]), items[n]);
      GroupsStep(items[..n], items[n]);
      assert items == items[..n] + [items[n]];
    }
  }

  lemma NoItems(cfg: Config)
    ensures !EndsOpen(FieldEvents(cfg, [])) && !HasQuietGroup([]) && !OpensEmptyGroup([])
    ensures Received([]) == []
  {
  }

  /** The fields the core receives for these items, no-ops aside. */
  function Received(items: seq<Item>): seq<Field> {
    Trim(NoSkips(EagerStream(items)))
  }

  lemma ReceivedStep(items: seq<Item>, it: Item)
    ensures Received(items + [it]) == if Present(it) then NoSkips(EagerStream(items)) + [ItemField(it)] else Received(items)
  {
    hide Convert, NoSkips, Trim, EagerStream;
    var fs, f := EagerStream(items), ItemField(it);
    EagerStep(items, it);
    NoSkipsConcat(fs, [f]);
    OneField(f);
    TrimStep(NoSkips(fs), f);
    assert NoSkips(fs) + [] == NoSkips(fs);
  }

  lemma EagerStep(items: seq<Item>, it: Item)
    ensures EagerStream(items + [it]) == EagerStream(items) + [ItemField(it)]
  {
    hide ItemField;
    assert (items + [it])[..|items|] == items;
  }

  lemma TrimStep(fs: seq<Field>, f: Field)
    ensures Trim(fs + [f]) == if f.Namespace? then Trim(fs) else fs + [f]
  {
    assert (fs + [f])[..|fs|] == fs;
  }

  /** The exact condition: the stream the core receives ends in an opened group with nothing in
      it if and only if some group is followed by an attribute that is not a no-op but by none
      that shows. */
  lemma {:induction false} EmptyGroupExactly(cfg: Config, items: seq<Item>)
    ensures EndsOpen(FieldEvents(cfg, Received(items))) <==> OpensEmptyGroup(items)
    decreases |items|
  {
    hide HasQuietGroup, OpensEmptyGroup, FieldEvents, Visible, EndsOpen, Convert, Received, EagerStream, NoSkips;
    if items == [] {
      NoItems(cfg);
    } else {
      var n := |items| - 1;
      var it, before := items[n], items[..n];
      assert items == before + [it];
      EmptyGroupExactly(cfg, before);
      ReceivedStep(before, it);
      GroupsStep(before, it);
      ItemEvents(cfg, it);
      if Present(it) {
        EagerEndsOpen(cfg, before);
        SkipsMeanNothing(cfg, EagerStream(before));
        EventsStep(cfg, NoSkips(EagerStream(before)), it);
        OpensHasQuiet(before);
      }
    }
  }

  lemma OpensHasQuiet(items: seq<Item>)
    ensures OpensEmptyGroup(items) ==> HasQuietGroup(items)
  {
    hide QuietAfter, PresentAfter;
  }

  /** For pending groups and the attributes of one call: the groups are opened for nothing if
      and only if some attribute is not a no-op and none is visible. */
  lemma PendingGroups(groups: seq<Item>, attrs: seq<Item>)
    requires groups != [] && (forall i | 0 <= i < |groups| :: groups[i].Named?) && forall i | 0 <= i < |attrs| :: attrs[i].Given?
    ensures OpensEmptyGroup(groups + attrs)
       <==> (exists i | 0 <= i < |attrs| :: Present(attrs[i])) && forall i | 0 <= i < |attrs| :: !Visible(attrs[i].attr)
  {
    hide Present, Visible;
    var all, g := groups + attrs, |groups| - 1;
    assert all[g].Named? && forall i | 0 <= i < |attrs| :: all[|groups| + i] == attrs[i];
    assert QuietAfter(all, g) <==> forall i | 0 <= i < |attrs| :: !Visible(attrs[i].attr);
    assert PresentAfter(all, g) <==> exists i | 0 <= i < |attrs| :: Present(attrs[i]);
    if OpensEmptyGroup(all) {
      var h :| 0 <= h < |all| && all[h].Named? && QuietAfter(all, h) && PresentAfter(all, h);
      assert h <= g && QuietAfter(all, g);
      var k :| h < k < |all| && Present(all[k]);
      PresentIsGiven(all[k]);
      assert k > g && PresentAfter(all, g);
    }
  }

  /** For every chain of WithGroup and WithAttrs ending in Handle, the fields the core
      receives, no-ops aside, are the eager stream without the namespaces left open at its
      end; and they end in an open, empty group exactly when some group has only invisible
      attributes after it, and one of these is not a no-op. */
  method HandleAfter(ops: seq<Op>, attrs: seq<Attr>, ghost cfg: Config) returns (stream: seq<Field>)
    ensures NoSkips(stream) == Received(ItemsOf(ops) + GivenAll(attrs))
    ensures EndsOpen(FieldEvents(cfg, stream)) <==> OpensEmptyGroup(ItemsOf(ops) + GivenAll(attrs))
  {
    hide ConvertAll, NoSkips, Trim, FieldEvents, OpensEmptyGroup, EagerStream, GivenAll, ItemField;
    var h := Handler([], []);
    OneNamed([]);
    for i := 0 to |ops|
      invariant EndsInField(NoSkips(h.context))
      invariant Owed(h) == NoSkips(EagerStream(ItemsOf(ops[..i])))
    {
      assert ops[..i + 1][..i] == ops[..i];
      match ops[i]
      case Group(g) =>
        EagerConcat(ItemsOf(ops[..i]), [Named(g)]);
        NoSkipsConcat(EagerStream(ItemsOf(ops[..i])), EagerStream([Named(g)]));
        OneNamed(g);
        GroupOwed(h, g);
        h := WithGroup(h, g);
      case Attrs(list) =>
        EagerConcat(ItemsOf(ops[..i]), GivenAll(list));
        EagerGiven(list);
        NoSkipsConcat(EagerStream(ItemsOf(ops[..i])), ConvertAll(list));
        h := WithAttrs(h, list);
    }
    assert ops[..|ops|] == ops;
    EagerConcat(ItemsOf(ops), GivenAll(attrs));
    EagerGiven(attrs);
    NoSkipsConcat(EagerStream(ItemsOf(ops)), ConvertAll(attrs));
    stream := Handle(h, attrs);
    SkipsMeanNothing(cfg, stream);
    EmptyGroupExactly(cfg, ItemsOf(ops) + GivenAll(attrs));
  }

  lemma OneNamed(g: Bytes)
    ensures NoSkips(EagerStream([Named(g)])) == [Namespace(g)] && EagerStream([]) == [] && NoSkips([]) == []
  {
    assert [Named(g)][..0] == [];
    assert EagerStream([Named(g)]) == [] + [Namespace(g)];
    OneField(Namespace(g));
  }

  /** For one: an unnamed group without attributes. */
  lemma EmptyGroupExample(group: Bytes)
    ensures OpensEmptyGroup([Named(group), Given(Attr([], GroupValue([])))])
  {
    var items := [Named(group), Given(Attr([], GroupValue([])))];
    assert Present(items[1]) && items[0].Named? && QuietAfter(items, 0);
    assert PresentAfter(items, 0);
  }
}
