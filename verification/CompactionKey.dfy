/**
 The compaction cache key (src/service.rs): the byte stream that is hashed, and
 its unique decoding.
 */
module CompactionKey {
  import opened Basics
  import opened Text
  import opened Messages

  newtype byte = x: int | 0 <= x < 256

  type Bytes = seq<byte>

  function Ascii(s: string): (b: Bytes)
    requires forall i :: 0 <= i < |s| ==> s[i] < '\U{0080}'
    ensures |b| == |s|
  {
    seq(|s|, i requires 0 <= i < |s| => s[i] as int as byte)
  }

  function Decimal(n: nat): (b: Bytes)
    ensures forall i :: 0 <= i < |b| ==> 48 <= b[i] <= 57
    ensures |b| >= 1 && (|b| == 1 <==> n < 10)
  {
    if n < 10 then [(48 + n) as byte] else Decimal(n / 10) + [(48 + n % 10) as byte]
  }

  function SignedDecimal(n: int): (b: Bytes)
    ensures b != []
  {
    if n < 0 then [45] + Decimal(-n) else Decimal(n)
  }

  lemma {:induction false} DecimalInjective(m: nat, n: nat)
    requires Decimal(m) == Decimal(n)
    ensures m == n
  {
    var a, b := Decimal(m), Decimal(n);
    if m >= 10 {
      assert a[..|a| - 1] == Decimal(m / 10) && b[..|b| - 1] == Decimal(n / 10);
      DecimalInjective(m / 10, n / 10);
      assert a[|a| - 1] == b[|b| - 1];
    } else {
      assert a[0] == b[0];
    }
  }

  lemma SignedDecimalInjective(m: int, n: int)
    requires SignedDecimal(m) == SignedDecimal(n)
    ensures m == n
  {
    var a, b := SignedDecimal(m), SignedDecimal(n);
    assert a[0] == b[0];
    if m < 0 {
      assert a[1..] == Decimal(-m) && b[1..] == Decimal(-n);
      DecimalInjective(-m, -n);
    } else {
      DecimalInjective(m, n);
    }
  }

  // ---- What is hashed ------------------------------------------------------------------------

  datatype Strategy =
    | HeadTail(headCount: nat, tailCount: nat)
    | AgeBased(maxAgeDays: nat)
    | BudgetBased(maxTokens: nat)

  /** A message whose content is its UTF-8 bytes. */
  datatype HistoryMessage = HistoryMessage(role: Role, content: Bytes)

  datatype Metadata = Metadata(sourceId: Option<int>, createdAt: Option<int>)

  const COLON: byte := 58

  function StrategyName(s: Strategy): Bytes {
    match s
    case HeadTail(head, tail) => Ascii("head_tail:") + (Decimal(head) + [COLON] + Decimal(tail))
    case AgeBased(days) => Ascii("age_based:") + Decimal(days)
    case BudgetBased(tokens) => Ascii("budget_based:") + Decimal(tokens)
  }

  function RoleName(r: Role): Bytes {
    match r
    case User => Ascii("user")
    case Assistant => Ascii("assistant")
    case System => Ascii("system")
  }

  function OptionalName(n: Option<int>): Bytes {
    match n
    case None => []
    case Some(v) => SignedDecimal(v)
  }

  datatype Label = StrategyField | HistoryLength | MessageRole | MessageContent | SourceId | CreatedAt

  function LabelName(l: Label): Bytes {
    match l
    case StrategyField => Ascii("strategy")
    case HistoryLength => Ascii("history_len")
    case MessageRole => Ascii("message.role")
    case MessageContent => Ascii("message.content")
    case SourceId => Ascii("metadata.source_id")
    case CreatedAt => Ascii("metadata.created_at")
  }

  /** One call of `update_compaction_source_hash`. */
  datatype Field = Field(lbl: Label, value: Bytes)

  function Frame(f: Field): Bytes {
    LabelName(f.lbl) + [0] + (Decimal(|f.value|) + [0] + (f.value + [0]))
  }

  function Stream(fields: seq<Field>): Bytes {
    if fields == [] then [] else Frame(fields[0]) + Stream(fields[1..])
  }

  function MessageFields(history: seq<HistoryMessage>): (fields: seq<Field>)
    ensures |fields| == 2 * |history|
  {
    if history == [] then []
    else
      var m := history[|history| - 1];
      MessageFields(history[..|history| - 1])
      + [Field(MessageRole, RoleName(m.role)), Field(MessageContent, m.content)]
  }

  function MetadataFields(metadata: seq<Metadata>): (fields: seq<Field>)
    ensures |fields| == 2 * |metadata|
  {
    if metadata == [] then []
    else
      var m := metadata[|metadata| - 1];
      MetadataFields(metadata[..|metadata| - 1])
      + [Field(SourceId, OptionalName(m.sourceId)),
         Field(CreatedAt, OptionalName(m.createdAt))]
  }

  function TopFields(name: Bytes, length: nat): seq<Field> {
    [Field(StrategyField, name), Field(HistoryLength, Decimal(length))]
  }

  function KeyFields(history: seq<HistoryMessage>, strategy: Strategy, metadata: seq<Metadata>): seq<Field> {
    TopFields(StrategyName(strategy), |history|) + MessageFields(history) + MetadataFields(metadata)
  }

  // ---- The hasher and the key ----------------------------------------------------------------

  class Sha256Hasher {
    var absorbed: Bytes

    constructor ()
      ensures absorbed == []
    {
      absorbed := [];
    }

    method Update(data: Bytes)
      modifies this
      ensures absorbed == old(absorbed) + data
    {
      absorbed := absorbed + data;
    }

    /** The digest is a function of everything absorbed; which function is not part of this model. */
    method Finalize(digest: Bytes -> Bytes) returns (hash: Bytes)
      ensures hash == digest(absorbed)
    {
      hash := digest(absorbed);
    }
  }

  lemma {:induction false} StreamSnoc(fields: seq<Field>, f: Field)
    ensures Stream(fields + [f]) == Stream(fields) + Frame(f)
  {
    if fields == [] {
      assert fields + [f] == [f] && [f][1..] == [];
    } else {
      assert (fields + [f])[1..] == fields[1..] + [f];
      StreamSnoc(fields[1..], f);
    }
  }

  lemma FrameInSteps(before: Bytes, lbl: Bytes, size: Bytes, value: Bytes)
    ensures before + lbl + [0] + size + [0] + value + [0] == before + (lbl + [0] + (size + [0] + (value + [0])))
  {
  }

  method UpdateCompactionSourceHash(hasher: Sha256Hasher, lbl: Label, value: Bytes, ghost before: seq<Field>)
    requires hasher.absorbed == Stream(before)
    modifies hasher
    ensures hasher.absorbed == Stream(before + [Field(lbl, value)])
  {
    StreamSnoc(before, Field(lbl, value));
    FrameInSteps(hasher.absorbed, LabelName(lbl), Decimal(|value|), value);
    hasher.Update(LabelName(lbl));
    hasher.Update([0]);
    hasher.Update(Decimal(|value|));
    hasher.Update([0]);
    hasher.Update(value);
    hasher.Update([0]);
  }

  datatype SourceKey = SourceKey(
    strategy: Bytes, sourceHash: Bytes, sourceMessageIds: seq<int>,
    firstMessageId: Option<int>, lastMessageId: Option<int>, messageCount: nat)

  function SourceIds(metadata: seq<Metadata>): seq<int> {
    if metadata == [] then []
    else
      SourceIds(metadata[..|metadata| - 1])
      + (if metadata[|metadata| - 1].sourceId.Some? then [metadata[|metadata| - 1].sourceId.value] else [])
  }

  function HasSource(metadata: seq<Metadata>): nat -> bool {
    (i: nat) => i < |metadata| && metadata[i].sourceId.Some?
  }

  ghost predicate SourcesAt(metadata: seq<Metadata>, at: seq<nat>) {
    Enumerates(at, |metadata|, HasSource(metadata))
  }

  ghost predicate ReadsAt(metadata: seq<Metadata>, ids: seq<int>, at: seq<nat>) {
    |ids| == |at| && forall k :: 0 <= k < |at| ==> at[k] < |metadata| && metadata[at[k]].sourceId == Some(ids[k])
  }

  /** The ids of all entries that have one, in the order of the entries. */
  ghost predicate AreSourceIds(metadata: seq<Metadata>, ids: seq<int>) {
    exists at: seq<nat> :: SourcesAt(metadata, at) && ReadsAt(metadata, ids, at)
  }

  ghost predicate IsFirstSourceId(metadata: seq<Metadata>, id: Option<int>) {
    if id.None? then forall i :: 0 <= i < |metadata| ==> metadata[i].sourceId.None?
    else exists i :: 0 <= i < |metadata| && metadata[i].sourceId == id && forall j :: 0 <= j < i ==> metadata[j].sourceId.None?
  }

  ghost predicate IsLastSourceId(metadata: seq<Metadata>, id: Option<int>) {
    if id.None? then forall i :: 0 <= i < |metadata| ==> metadata[i].sourceId.None?
    else exists i :: 0 <= i < |metadata| && metadata[i].sourceId == id && forall j :: i < j < |metadata| ==> metadata[j].sourceId.None?
  }

  lemma {:induction false} SourceIdsUpTo(metadata: seq<Metadata>, n: nat) returns (at: seq<nat>)
    requires n <= |metadata|
    ensures Enumerates(at, n, HasSource(metadata))
    ensures ReadsAt(metadata, SourceIds(metadata[..n]), at)
  {
    if n == 0 {
      at := [];
    } else {
      var before := SourceIdsUpTo(metadata, n - 1);
      assert metadata[..n][..n - 1] == metadata[..n - 1];
      at := EnumeratesNext(before, n - 1, HasSource(metadata));
    }
  }

  lemma SourceIdsAre(metadata: seq<Metadata>)
    ensures AreSourceIds(metadata, SourceIds(metadata))
  {
    var at := SourceIdsUpTo(metadata, |metadata|);
    assert metadata[..|metadata|] == metadata;
    assert SourcesAt(metadata, at);
  }

  lemma FirstAndLastSourceId(metadata: seq<Metadata>, ids: seq<int>)
    requires AreSourceIds(metadata, ids)
    ensures IsFirstSourceId(metadata, if ids == [] then None else Some(ids[0]))
    ensures IsLastSourceId(metadata, if ids == [] then None else Some(ids[|ids| - 1]))
  {
    var at: seq<nat> :| SourcesAt(metadata, at) && ReadsAt(metadata, ids, at);
    SourcesBetween(metadata, at);
    EndsOfIds(metadata, ids, at);
  }

  lemma EndsOfIds(metadata: seq<Metadata>, ids: seq<int>, at: seq<nat>)
    requires ReadsAt(metadata, ids, at)
    requires forall i: nat :: i < |metadata| && metadata[i].sourceId.Some? ==> at != [] && at[0] <= i <= at[|at| - 1]
    ensures IsFirstSourceId(metadata, if ids == [] then None else Some(ids[0]))
    ensures IsLastSourceId(metadata, if ids == [] then None else Some(ids[|ids| - 1]))
  {
    if at != [] {
      EndsAreSources(metadata, at[0], at[|at| - 1], ids[0], ids[|ids| - 1]);
    }
  }

  lemma SourcesBetween(metadata: seq<Metadata>, at: seq<nat>)
    requires SourcesAt(metadata, at)
    ensures forall i: nat :: i < |metadata| && metadata[i].sourceId.Some? ==> at != [] && at[0] <= i <= at[|at| - 1]
  {
    EnumeratesEnds(at, |metadata|, HasSource(metadata));
    forall i: nat | i < |metadata| && metadata[i].sourceId.Some?
      ensures at != [] && at[0] <= i <= at[|at| - 1]
    {
      assert HasSource(metadata)(i);
    }
  }

  lemma EndsAreSources(metadata: seq<Metadata>, first: nat, last: nat, firstId: int, lastId: int)
    requires first < |metadata| && last < |metadata| && metadata[first].sourceId == Some(firstId) && metadata[last].sourceId == Some(lastId)
    requires forall i: nat :: i < |metadata| && metadata[i].sourceId.Some? ==> first <= i <= last
    ensures IsFirstSourceId(metadata, Some(firstId)) && IsLastSourceId(metadata, Some(lastId))
  {
  }

  method HashTop(hasher: Sha256Hasher, name: Bytes, length: nat)
    requires hasher.absorbed == []
    modifies hasher
    ensures hasher.absorbed == Stream(TopFields(name, length))
  {
    UpdateCompactionSourceHash(hasher, StrategyField, name, []);
    assert [] + [Field(StrategyField, name)] == [Field(StrategyField, name)];
    UpdateCompactionSourceHash(hasher, HistoryLength, Decimal(length), [Field(StrategyField, name)]);
    assert [Field(StrategyField, name)] + [Field(HistoryLength, Decimal(length))] == TopFields(name, length);
  }

  method HashHistory(hasher: Sha256Hasher, history: seq<HistoryMessage>, ghost before: seq<Field>)
    requires hasher.absorbed == Stream(before)
    modifies hasher
    ensures hasher.absorbed == Stream(before + MessageFields(history))
  {
    assert before + MessageFields(history[..0]) == before;
    for i := 0 to |history|
      invariant hasher.absorbed == Stream(before + MessageFields(history[..i]))
    {
      var m := history[i];
      ghost var fields := before + MessageFields(history[..i]);
      assert history[..i + 1][..i] == history[..i];
      assert before + MessageFields(history[..i + 1])
          == fields + [Field(MessageRole, RoleName(m.role))] + [Field(MessageContent, m.content)];
      UpdateCompactionSourceHash(hasher, MessageRole, RoleName(m.role), fields);
      UpdateCompactionSourceHash(hasher, MessageContent, m.content,
                                 fields + [Field(MessageRole, RoleName(m.role))]);
    }
    assert history[..|history|] == history;
  }

  method HashMetadata(hasher: Sha256Hasher, metadata: seq<Metadata>, ghost before: seq<Field>)
    requires hasher.absorbed == Stream(before)
    modifies hasher
    ensures hasher.absorbed == Stream(before + MetadataFields(metadata))
  {
    assert before + MetadataFields(metadata[..0]) == before;
    for i := 0 to |metadata|
      invariant hasher.absorbed == Stream(before + MetadataFields(metadata[..i]))
    {
      var m := metadata[i];
      ghost var fields := before + MetadataFields(metadata[..i]);
      ghost var source := Field(SourceId, OptionalName(m.sourceId));
      assert metadata[..i + 1][..i] == metadata[..i];
      assert before + MetadataFields(metadata[..i + 1])
          == fields + [source] + [Field(CreatedAt, OptionalName(m.createdAt))];
      UpdateCompactionSourceHash(hasher, SourceId, OptionalName(m.sourceId), fields);
      UpdateCompactionSourceHash(hasher, CreatedAt, OptionalName(m.createdAt), fields + [source]);
    }
    assert metadata[..|metadata|] == metadata;
  }

  method BuildCompactionSourceKey(history: seq<HistoryMessage>, strategy: Strategy, metadata: seq<Metadata>,
                                  digest: Bytes -> Bytes) returns (key: SourceKey)
    ensures key.strategy == StrategyName(strategy) && key.messageCount == |history|
    ensures key.sourceHash == digest(Stream(KeyFields(history, strategy, metadata)))
    ensures key.sourceMessageIds == SourceIds(metadata)
    ensures key.firstMessageId == if SourceIds(metadata) == [] then None else Some(SourceIds(metadata)[0])
    ensures key.lastMessageId == if SourceIds(metadata) == [] then None else Some(SourceIds(metadata)[|SourceIds(metadata)| - 1])
    ensures AreSourceIds(metadata, key.sourceMessageIds)
    ensures IsFirstSourceId(metadata, key.firstMessageId) && IsLastSourceId(metadata, key.lastMessageId)
  {
    SourceIdsAre(metadata);
    FirstAndLastSourceId(metadata, SourceIds(metadata));
    var name := StrategyName(strategy);
    var hasher := new Sha256Hasher();
    HashTop(hasher, name, |history|);
    ghost var top := TopFields(name, |history|);
    HashHistory(hasher, history, top);
    HashMetadata(hasher, metadata, top + MessageFields(history));
    assert top + MessageFields(history) + MetadataFields(metadata) == KeyFields(history, strategy, metadata);
    var hash := hasher.Finalize(digest);
    var ids := SourceIds(metadata);
    key := SourceKey(name, hash, ids, if ids == [] then None else Some(ids[0]),
                     if ids == [] then None else Some(ids[|ids| - 1]), |history|);
  }

  // ---- What the stream holds, field by field -----------------------------------------------------

  lemma {:induction false} MessageFieldsAt(history: seq<HistoryMessage>, i: nat)
    requires i < |history|
    ensures MessageFields(history)[2 * i] == Field(MessageRole, RoleName(history[i].role))
    ensures MessageFields(history)[2 * i + 1] == Field(MessageContent, history[i].content)
  {
    if i < |history| - 1 {
      MessageFieldsAt(history[..|history| - 1], i);
    }
  }

  lemma {:induction false} MetadataFieldsAt(metadata: seq<Metadata>, i: nat)
    requires i < |metadata|
    ensures MetadataFields(metadata)[2 * i] == Field(SourceId, OptionalName(metadata[i].sourceId))
    ensures MetadataFields(metadata)[2 * i + 1] == Field(CreatedAt, OptionalName(metadata[i].createdAt))
  {
    if i < |metadata| - 1 {
      MetadataFieldsAt(metadata[..|metadata| - 1], i);
    }
  }

  /** The stream starts with the strategy and the number of messages. */
  lemma KeyStarts(history: seq<HistoryMessage>, strategy: Strategy, metadata: seq<Metadata>)
    ensures var fields := KeyFields(history, strategy, metadata);
            && |fields| == 2 + 2 * |history| + 2 * |metadata|
            && fields[0] == Field(StrategyField, StrategyName(strategy)) && fields[1] == Field(HistoryLength, Decimal(|history|))
  {
  }

  /** Then come role and content of every message. */
  lemma KeyHoldsMessage(history: seq<HistoryMessage>, strategy: Strategy, metadata: seq<Metadata>, i: nat)
    requires i < |history|
    ensures var fields := KeyFields(history, strategy, metadata);
            && fields[2 + 2 * i] == Field(MessageRole, RoleName(history[i].role))
            && fields[3 + 2 * i] == Field(MessageContent, history[i].content)
  {
    MessageFieldsAt(history, i);
    InMiddle(TopFields(StrategyName(strategy), |history|), MessageFields(history), MetadataFields(metadata), 2 * i);
    InMiddle(TopFields(StrategyName(strategy), |history|), MessageFields(history), MetadataFields(metadata), 2 * i + 1);
  }

  lemma InMiddle(a: seq<Field>, b: seq<Field>, c: seq<Field>, i: nat)
    ensures i < |b| ==> (a + b + c)[|a| + i] == b[i]
    ensures i < |c| ==> (a + b + c)[|a| + |b| + i] == c[i]
  {
  }

  /** And then id and time of every entry. */
  lemma KeyHoldsMetadata(history: seq<HistoryMessage>, strategy: Strategy, metadata: seq<Metadata>, i: nat)
    requires i < |metadata|
    ensures var fields := KeyFields(history, strategy, metadata);
            && fields[2 + 2 * |history| + 2 * i] == Field(SourceId, OptionalName(metadata[i].sourceId))
            && fields[3 + 2 * |history| + 2 * i] == Field(CreatedAt, OptionalName(metadata[i].createdAt))
  {
    MetadataFieldsAt(metadata, i);
    InMiddle(TopFields(StrategyName(strategy), |history|), MessageFields(history), MetadataFields(metadata), 2 * i);
    InMiddle(TopFields(StrategyName(strategy), |history|), MessageFields(history), MetadataFields(metadata), 2 * i + 1);
  }

  /** The number that a decimal numeral denotes. */
  function Denotes(digits: Bytes): int {
    if digits == [] then 0 else 10 * Denotes(digits[..|digits| - 1]) + (digits[|digits| - 1] as int - 48)
  }

  lemma {:induction false} DecimalDenotes(n: nat)
    ensures Denotes(Decimal(n)) == n
  {
    if n >= 10 {
      var d := Decimal(n);
      DecimalDenotes(n / 10);
      assert d[..|d| - 1] == Decimal(n / 10);
    } else {
      assert Decimal(n)[..0] == [];
    }
  }

  /** The texts of the code, for one strategy of each kind. */
  lemma NamesAre()
    ensures StrategyName(HeadTail(2, 5)) == Ascii("head_tail:2:5")
    ensures StrategyName(AgeBased(7)) == Ascii("age_based:7") && StrategyName(BudgetBased(9)) == Ascii("budget_based:9")
    ensures RoleName(User) == Ascii("user") && RoleName(Assistant) == Ascii("assistant") && RoleName(System) == Ascii("system")
  {
    assert Decimal(2) == [50] && Decimal(5) == [53] && Decimal(7) == [55] && Decimal(9) == [57];
  }

  // ---- Unique decoding -----------------------------------------------------------------------

  lemma LabelsHaveNoZero(l: Label)
    ensures 0 !in LabelName(l)
  {
  }

  lemma LabelNameInjective(l: Label, l': Label)
    requires LabelName(l) == LabelName(l')
    ensures l == l'
  {
    LabelLength(l);
    LabelLength(l');
  }

  lemma LabelLength(l: Label)
    ensures |LabelName(l)| == match l
              case StrategyField => 8
              case HistoryLength => 11
              case MessageRole => 12
              case MessageContent => 15
              case SourceId => 18
              case CreatedAt => 19
  {
  }

  lemma SplitAtByte(a: Bytes, x: Bytes, b: Bytes, y: Bytes, sep: byte)
    requires sep !in a && sep !in b && a + [sep] + x == b + [sep] + y
    ensures a == b && x == y
  {
    var s, t := a + [sep] + x, b + [sep] + y;
    assert s[|a|] == sep && t[|b|] == sep;
    assert forall i :: 0 <= i < |a| ==> s[i] == a[i] && a[i] in a;
    assert forall i :: 0 <= i < |b| ==> t[i] == b[i] && b[i] in b;
    assert |a| == |b|;
    assert s[..|a|] == a && t[..|b|] == b;
    assert s[|a| + 1..] == x && t[|b| + 1..] == y;
  }

  lemma SplitAtLength(a: Bytes, x: Bytes, b: Bytes, y: Bytes)
    requires |a| == |b| && a + x == b + y
    ensures a == b && x == y
  {
    assert (a + x)[..|a|] == a && (b + y)[..|b|] == b;
    assert (a + x)[|a|..] == x && (b + y)[|b|..] == y;
  }

  /** What follows the label, and what follows the length, of a frame and the bytes after it. */
  function AfterLabel(f: Field, rest: Bytes): Bytes {
    Decimal(|f.value|) + [0] + AfterLength(f, rest)
  }

  function AfterLength(f: Field, rest: Bytes): Bytes {
    f.value + ([0] + rest)
  }

  lemma FrameStarts(f: Field, rest: Bytes)
    ensures Frame(f) + rest == LabelName(f.lbl) + [0] + AfterLabel(f, rest)
  {
    var name, length, value := LabelName(f.lbl), Decimal(|f.value|), f.value;
    assert (value + [0]) + rest == AfterLength(f, rest);
    assert (length + [0] + (value + [0])) + rest == length + [0] + ((value + [0]) + rest);
    Associates(name + [0], length + [0] + (value + [0]), rest);
  }

  lemma LabelRecovered(f: Field, rest: Bytes, g: Field, rest': Bytes)
    requires Frame(f) + rest == Frame(g) + rest'
    ensures f.lbl == g.lbl && AfterLabel(f, rest) == AfterLabel(g, rest')
  {
    FrameStarts(f, rest);
    FrameStarts(g, rest');
    LabelsHaveNoZero(f.lbl);
    LabelsHaveNoZero(g.lbl);
    SplitAtByte(LabelName(f.lbl), AfterLabel(f, rest), LabelName(g.lbl), AfterLabel(g, rest'), 0);
    LabelNameInjective(f.lbl, g.lbl);
  }

  lemma LengthRecovered(f: Field, rest: Bytes, g: Field, rest': Bytes)
    requires AfterLabel(f, rest) == AfterLabel(g, rest')
    ensures |f.value| == |g.value| && AfterLength(f, rest) == AfterLength(g, rest')
  {
    SplitAtByte(Decimal(|f.value|), AfterLength(f, rest), Decimal(|g.value|), AfterLength(g, rest'), 0);
    DecimalInjective(|f.value|, |g.value|);
  }

  lemma ValueRecovered(f: Field, rest: Bytes, g: Field, rest': Bytes)
    requires |f.value| == |g.value| && AfterLength(f, rest) == AfterLength(g, rest')
    ensures f.value == g.value && rest == rest'
  {
    SplitAtLength(f.value, [0] + rest, g.value, [0] + rest');
    SplitAtLength([0], rest, [0], rest');
  }

  /** A frame tells where it ends: whatever follows, the field is recovered. */
  lemma FrameIsPrefixCode(f: Field, rest: Bytes, g: Field, rest': Bytes)
    requires Frame(f) + rest == Frame(g) + rest'
    ensures f == g && rest == rest'
  {
    LabelRecovered(f, rest, g, rest');
    LengthRecovered(f, rest, g, rest');
    ValueRecovered(f, rest, g, rest');
  }

  lemma StreamStarts(fields: seq<Field>)
    requires fields != []
    ensures Stream(fields) == Frame(fields[0]) + Stream(fields[1..]) && Stream(fields) != []
  {
  }

  lemma {:induction false} StreamInjective(f: seq<Field>, g: seq<Field>)
    requires Stream(f) == Stream(g)
    ensures f == g
    decreases |f|
  {
    if f != [] {
      StreamStarts(f);
    }
    if g != [] {
      StreamStarts(g);
    }
    if f != [] && g != [] {
      FrameIsPrefixCode(f[0], Stream(f[1..]), g[0], Stream(g[1..]));
      StreamInjective(f[1..], g[1..]);
      assert f == [f[0]] + f[1..] && g == [g[0]] + g[1..];
    }
  }

  lemma DigitsHaveNoColon(n: nat)
    ensures COLON !in Decimal(n)
  {
  }

  lemma StrategyTag(s: Strategy)
    ensures StrategyName(s) != [] && StrategyName(s)[0] == if s.HeadTail? then 104 else if s.AgeBased? then 97 else 98
  {
  }

  lemma HeadTailInjective(head: nat, tail: nat, head': nat, tail': nat)
    requires Decimal(head) + [COLON] + Decimal(tail) == Decimal(head') + [COLON] + Decimal(tail')
    ensures head == head' && tail == tail'
  {
    DigitsHaveNoColon(head);
    DigitsHaveNoColon(head');
    SplitAtByte(Decimal(head), Decimal(tail), Decimal(head'), Decimal(tail'), COLON);
    DecimalInjective(head, head');
    DecimalInjective(tail, tail');
  }

  lemma SamePrefix(p: Bytes, x: Bytes, y: Bytes)
    requires p + x == p + y
    ensures x == y
  {
    SplitAtLength(p, x, p, y);
  }

  lemma StrategyNameInjective(s: Strategy, t: Strategy)
    requires StrategyName(s) == StrategyName(t)
    ensures s == t
  {
    StrategyTag(s);
    StrategyTag(t);
    match s
    case HeadTail(head, tail) =>
      SamePrefix(Ascii("head_tail:"), Decimal(head) + [COLON] + Decimal(tail),
                 Decimal(t.headCount) + [COLON] + Decimal(t.tailCount));
      HeadTailInjective(head, tail, t.headCount, t.tailCount);
    case AgeBased(days) =>
      SamePrefix(Ascii("age_based:"), Decimal(days), Decimal(t.maxAgeDays));
      DecimalInjective(days, t.maxAgeDays);
    case BudgetBased(tokens) =>
      SamePrefix(Ascii("budget_based:"), Decimal(tokens), Decimal(t.maxTokens));
      DecimalInjective(tokens, t.maxTokens);
  }

  lemma RoleNameInjective(r: Role, q: Role)
    requires RoleName(r) == RoleName(q)
    ensures r == q
  {
    assert |RoleName(User)| == 4 && |RoleName(Assistant)| == 9 && |RoleName(System)| == 6;
  }

  lemma OptionalNameInjective(m: Option<int>, n: Option<int>)
    requires OptionalName(m) == OptionalName(n)
    ensures m == n
  {
    if m.Some? && n.Some? {
      SignedDecimalInjective(m.value, n.value);
    }
  }

  lemma MessageFieldsInjective(h: seq<HistoryMessage>, k: seq<HistoryMessage>)
    requires |h| == |k| && MessageFields(h) == MessageFields(k)
    ensures h == k
  {
    forall i | 0 <= i < |h|
      ensures h[i] == k[i]
    {
      MessageFieldsAt(h, i);
      MessageFieldsAt(k, i);
      RoleNameInjective(h[i].role, k[i].role);
    }
  }

  lemma MetadataFieldsInjective(m: seq<Metadata>, n: seq<Metadata>)
    requires MetadataFields(m) == MetadataFields(n)
    ensures m == n
  {
    assert |MetadataFields(m)| == 2 * |m| && |MetadataFields(n)| == 2 * |n|;
    forall i | 0 <= i < |m|
      ensures m[i] == n[i]
    {
      MetadataFieldsAt(m, i);
      MetadataFieldsAt(n, i);
      OptionalNameInjective(m[i].sourceId, n[i].sourceId);
      OptionalNameInjective(m[i].createdAt, n[i].createdAt);
    }
  }

  /** Equal streams come from equal inputs, whatever bytes the contents hold. */
  lemma StreamDecodesUniquely(h: seq<HistoryMessage>, s: Strategy, m: seq<Metadata>,
                              h': seq<HistoryMessage>, s': Strategy, m': seq<Metadata>)
    requires Stream(KeyFields(h, s, m)) == Stream(KeyFields(h', s', m'))
    ensures h == h' && s == s' && m == m'
  {
    var a, b := KeyFields(h, s, m), KeyFields(h', s', m');
    StreamInjective(a, b);
    assert a[0] == b[0] && a[1] == b[1];
    StrategyNameInjective(s, s');
    DecimalInjective(|h|, |h'|);
    assert a[2..2 + 2 * |h|] == MessageFields(h) && b[2..2 + 2 * |h|] == MessageFields(h');
    assert a[2 + 2 * |h|..] == MetadataFields(m) && b[2 + 2 * |h|..] == MetadataFields(m');
    MessageFieldsInjective(h, h');
    MetadataFieldsInjective(m, m');
  }

  /** With a digest that does not collide on the two streams, two cache keys share a hash exactly when they were
      built from the same strategy, messages and metadata. */
  lemma SameHashIffSameSource(h: seq<HistoryMessage>, s: Strategy, m: seq<Metadata>,
                              h': seq<HistoryMessage>, s': Strategy, m': seq<Metadata>, digest: Bytes -> Bytes)
    requires digest(Stream(KeyFields(h, s, m))) == digest(Stream(KeyFields(h', s', m')))
         ==> Stream(KeyFields(h, s, m)) == Stream(KeyFields(h', s', m'))
    ensures digest(Stream(KeyFields(h, s, m))) == digest(Stream(KeyFields(h', s', m')))
       <==> h == h' && s == s' && m == m'
  {
    if digest(Stream(KeyFields(h, s, m))) == digest(Stream(KeyFields(h', s', m'))) {
      StreamDecodesUniquely(h, s, m, h', s', m');
    }
  }
}
