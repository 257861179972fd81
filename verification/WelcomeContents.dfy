/**
 * What a WELCOME body says, found by skipping alone: which keys stand in its maps and where their
 * values lie. The WELCOME reader, which reads every value by its type, returns exactly that.
 */
module WelcomeContents {
  import opened Bytes
  import opened Cbor
  import opened CborFacts
  import opened Envelope
  import opened EnvelopeSpans
  import opened Replies

  /** Among the next `count` entries at `pos`, skipped at `depth`, one has this key and its value at `at`. */
  predicate Stands(b: Bytes, pos: nat, count: nat, depth: nat, key: u64, at: nat)
    decreases count
  {
    && count > 0
    && UintAt(b, pos).Ok?
    && (var k := UintAt(b, pos).value;
        || (k.value == key && at == k.next)
        || (SkipAt(b, k.next, depth).Ok? && Stands(b, SkipAt(b, k.next, depth).value, count - 1, depth, key, at)))
  }

  ghost predicate Names(b: Bytes, pos: nat, count: nat, depth: nat, key: u64) {
    exists at: nat :: Stands(b, pos, count, depth, key, at)
  }

  ghost predicate Flags(b: Bytes, pos: nat, count: nat, field: u64) {
    exists at: nat :: Stands(b, pos, count, 3, field, at) && At(b, at, [0xF5])
  }

  function Saturated(n: u64): nat {
    if n < 0xFFFF_FFFF then n else 0xFFFF_FFFF
  }

  /** The stated limit of a field, wherever it stands. */
  ghost predicate Limits(b: Bytes, pos: nat, count: nat, field: u64, limit: nat) {
    exists at: nat :: Stands(b, pos, count, 3, field, at) && UintAt(b, at).Ok? && limit == Saturated(UintAt(b, at).value.value)
  }

  lemma StandsUnfold(b: Bytes, pos: nat, count: nat, depth: nat, key: u64, next: nat)
    requires count > 0 && UintAt(b, pos).Ok? && SkipAt(b, UintAt(b, pos).value.next, depth) == Ok(next)
    ensures forall at: nat :: Stands(b, pos, count, depth, key, at) <==>
              (UintAt(b, pos).value.value == key && at == UintAt(b, pos).value.next) || Stands(b, next, count - 1, depth, key, at)
    ensures Names(b, pos, count, depth, key) <==> UintAt(b, pos).value.value == key || Names(b, next, count - 1, depth, key)
  {
    hide UintAt, SkipAt;
    if UintAt(b, pos).value.value == key {
      assert Stands(b, pos, count, depth, key, UintAt(b, pos).value.next);
    }
    if Names(b, next, count - 1, depth, key) {
      var at: nat :| Stands(b, next, count - 1, depth, key, at);
      assert Stands(b, pos, count, depth, key, at);
    }
    if Names(b, pos, count, depth, key) {
      var at: nat :| Stands(b, pos, count, depth, key, at);
      assert UintAt(b, pos).value.value == key || Stands(b, next, count - 1, depth, key, at);
    }
  }

  // ---- The inner maps ------------------------------------------------------------------------

  lemma NothingStands(b: Bytes, pos: nat, depth: nat, key: u64)
    ensures !Names(b, pos, 0, depth, key) && !Flags(b, pos, 0, key) && forall limit :: !Limits(b, pos, 0, key, limit)
  {
  }

  /** What one more entry in front adds to the flags and limits of a field. */
  lemma FieldSplits(b: Bytes, pos: nat, count: nat, field: u64, next: nat)
    requires count > 0 && UintAt(b, pos).Ok? && SkipAt(b, UintAt(b, pos).value.next, 3) == Ok(next)
    ensures var k := UintAt(b, pos).value;
            && (Flags(b, pos, count, field) <==> (k.value == field && At(b, k.next, [0xF5])) || Flags(b, next, count - 1, field))
            && (forall limit :: Limits(b, pos, count, field, limit) <==>
                  (k.value == field && UintAt(b, k.next).Ok? && limit == Saturated(UintAt(b, k.next).value.value))
                  || Limits(b, next, count - 1, field, limit))
  {
    hide UintAt, SkipAt, Stands, At, Saturated;
    StandsUnfold(b, pos, count, 3, field, next);
    var k := UintAt(b, pos).value;
    assert k.value == field ==> Stands(b, pos, count, 3, field, k.next);
    if Flags(b, next, count - 1, field) {
      var at: nat :| Stands(b, next, count - 1, 3, field, at) && At(b, at, [0xF5]);
      assert Stands(b, pos, count, 3, field, at);
    }
    forall limit | Limits(b, next, count - 1, field, limit) ensures Limits(b, pos, count, field, limit) {
      var at: nat :| Stands(b, next, count - 1, 3, field, at) && UintAt(b, at).Ok? && limit == Saturated(UintAt(b, at).value.value);
      assert Stands(b, pos, count, 3, field, at);
    }
  }

  /** Every field's typed read ends where skipping it ends. */
  lemma FieldEnds(b: Bytes, pos: nat, key: u64, field: u64, w: Welcome)
    requires |w.limits| == 5 && SkipAt(b, pos, 3).Ok? && WelcomeFieldAt(b, pos, key, field, w).Ok?
    ensures SkipAt(b, pos, 3) == Ok(WelcomeFieldAt(b, pos, key, field, w).value.next)
  {
    hide SkipAt, UintAt;
    if key == 3 && field < 5 {
      UintSkips(b, pos, 3);
    } else if key == 2 && field < 4 {
      SimpleSkips(b, pos, 3);
    } else {
      SkipShallower(b, pos, 3, 2);
    }
  }

  /** What reading one field does to the record. */
  lemma FieldMeans(b: Bytes, pos: nat, key: u64, field: u64, w: Welcome, f: u64)
    requires |w.limits| == 5 && f < 5 && WelcomeFieldAt(b, pos, key, field, w).Ok?
    ensures var v := WelcomeFieldAt(b, pos, key, field, w).value.value;
            && (f in v.capabilities <==> f in w.capabilities || (key == 2 && f < 4 && field == f && At(b, pos, [0xF5])))
            && (f in v.limitsPresent <==> f in w.limitsPresent || (key == 3 && field == f))
            && (if key == 3 && field == f then UintAt(b, pos).Ok? && v.limits[f] == Saturated(UintAt(b, pos).value.value)
                else v.limits[f] == w.limits[f])
            && v.name == w.name && v.version == w.version
  {
    hide SkipAt, UintAt;
    if pos < |b| {
      assert b[pos..pos + 1] == [b[pos]];
    }
  }

  /** The record after a run of fields, as far as field `f` is concerned. */
  ghost predicate FieldsSay(b: Bytes, pos: nat, key: u64, count: nat, w: Welcome, v: Welcome, f: u64)
    requires |w.limits| == |v.limits| == 5 && f < 5
  {
    && (f in v.capabilities <==> f in w.capabilities || (key == 2 && f < 4 && Flags(b, pos, count, f)))
    && (f in v.limitsPresent <==> f in w.limitsPresent || (key == 3 && Names(b, pos, count, 3, f)))
    && (if key == 3 && Names(b, pos, count, 3, f) then Limits(b, pos, count, f, v.limits[f]) else v.limits[f] == w.limits[f])
    && v.name == w.name && v.version == w.version
  }

  lemma {:induction false} FieldsMean(b: Bytes, pos: nat, key: u64, count: nat, fields: set<u64>, w: Welcome, f: u64)
    requires pos <= |b| && |w.limits| == 5 && f < 5 && SkipItems(b, pos, 3, 2 * count).Ok?
    ensures WelcomeFieldsAt(b, pos, key, count, fields, w).Ok? ==>
              && FieldsSay(b, pos, key, count, w, WelcomeFieldsAt(b, pos, key, count, fields, w).value.value, f)
              && (f in fields ==> !Names(b, pos, count, 3, f))
    decreases count
  {
    hide SkipAt, UintAt, WelcomeFieldAt, Names, Flags, Limits;
    if count == 0 {
      NothingStands(b, pos, 3, f);
    } else if WelcomeFieldsAt(b, pos, key, count, fields, w).Ok? {
      UintSkips(b, pos, 3);
      var field := UintAt(b, pos).value;
      FieldEnds(b, field.next, key, field.value, w);
      FieldMeans(b, field.next, key, field.value, w, f);
      var now := WelcomeFieldAt(b, field.next, key, field.value, w).value;
      FieldsMean(b, now.next, key, count - 1, Seen(fields, field.value, 4), now.value, f);
      StandsUnfold(b, pos, count, 3, f, now.next);
      FieldSplits(b, pos, count, f, now.next);
    }
  }

  // ---- The body map --------------------------------------------------------------------------

  /** The map whose head stands at `at` says so of the field. */
  ghost predicate FlagsIn(b: Bytes, at: nat, field: u64) {
    ContainerAt(b, at, 5).Ok? && Flags(b, ContainerAt(b, at, 5).value.next, ContainerAt(b, at, 5).value.value, field)
  }

  ghost predicate NamesIn(b: Bytes, at: nat, field: u64) {
    ContainerAt(b, at, 5).Ok? && Names(b, ContainerAt(b, at, 5).value.next, ContainerAt(b, at, 5).value.value, 3, field)
  }

  ghost predicate LimitsIn(b: Bytes, at: nat, field: u64, limit: nat) {
    ContainerAt(b, at, 5).Ok? && Limits(b, ContainerAt(b, at, 5).value.next, ContainerAt(b, at, 5).value.value, field, limit)
  }

  /** What the value of `key` at `at` does to the record, as far as field `f` is concerned. */
  ghost predicate ValueSays(b: Bytes, at: nat, key: u64, w: Welcome, v: Welcome, f: u64)
    requires |w.limits| == |v.limits| == 5 && f < 5
  {
    && (f in v.capabilities <==> f in w.capabilities || (key == 2 && f < 4 && FlagsIn(b, at, f)))
    && (f in v.limitsPresent <==> f in w.limitsPresent || (key == 3 && NamesIn(b, at, f)))
    && (if key == 3 && NamesIn(b, at, f) then LimitsIn(b, at, f, v.limits[f]) else v.limits[f] == w.limits[f])
    && (if key == 0 then OptionalTextAt(b, at, 64).Ok? && v.name == OptionalTextAt(b, at, 64).value.value else v.name == w.name)
    && (if key == 1 then OptionalTextAt(b, at, 64).Ok? && v.version == OptionalTextAt(b, at, 64).value.value else v.version == w.version)
  }

  lemma ValueMeans(b: Bytes, at: nat, key: u64, w: Welcome, f: u64)
    requires |b| <= MDU && |w.limits| == 5 && f < 5 && SkipAt(b, at, 2).Ok?
    requires WelcomeValueAt(b, at, key, w).Ok?
    ensures ValueSays(b, at, key, w, WelcomeValueAt(b, at, key, w).value.value, f)
    ensures SkipAt(b, at, 2) == Ok(WelcomeValueAt(b, at, key, w).value.next)
  {
    hide SkipAt, SkipItems, ContainerAt, OptionalTextAt, WelcomeFieldsAt, Flags, Names, Limits;
    WelcomeValueEnds(b, at, key, w);
    if key == 2 || key == 3 {
      ContainerSkips(b, at, 5, 2);
      var c := ContainerAt(b, at, 5).value;
      FieldsMean(b, c.next, key, c.value, {}, w, f);
    }
  }

  ghost predicate BodyFlags(b: Bytes, pos: nat, count: nat, field: u64) {
    exists at: nat :: Stands(b, pos, count, 2, 2, at) && FlagsIn(b, at, field)
  }

  ghost predicate BodyNames(b: Bytes, pos: nat, count: nat, field: u64) {
    exists at: nat :: Stands(b, pos, count, 2, 3, at) && NamesIn(b, at, field)
  }

  ghost predicate BodyLimits(b: Bytes, pos: nat, count: nat, field: u64, limit: nat) {
    exists at: nat :: Stands(b, pos, count, 2, 3, at) && LimitsIn(b, at, field, limit)
  }

  /** The record after all entries of the body, as far as field `f` is concerned. */
  ghost predicate BodySays(b: Bytes, pos: nat, count: nat, w: Welcome, v: Welcome, f: u64)
    requires |w.limits| == |v.limits| == 5 && f < 5
  {
    && (f in v.capabilities <==> f in w.capabilities || (f < 4 && BodyFlags(b, pos, count, f)))
    && (f in v.limitsPresent <==> f in w.limitsPresent || BodyNames(b, pos, count, f))
    && (if BodyNames(b, pos, count, f) then BodyLimits(b, pos, count, f, v.limits[f]) else v.limits[f] == w.limits[f])
    && TextSays(b, pos, count, 0, w.name, v.name) && TextSays(b, pos, count, 1, w.version, v.version)
  }

  /** A text is the one under its key, or what it was when the key does not stand there. */
  ghost predicate TextSays(b: Bytes, pos: nat, count: nat, key: u64, was: Span, text: Span) {
    if Names(b, pos, count, 2, key)
    then exists at: nat :: Stands(b, pos, count, 2, key, at) && OptionalTextAt(b, at, 64).Ok?
                           && text == OptionalTextAt(b, at, 64).value.value
    else text == was
  }

  lemma TextSplits(b: Bytes, pos: nat, count: nat, key: u64, was: Span, mid: Span, text: Span, next: nat)
    requires count > 0 && UintAt(b, pos).Ok? && SkipAt(b, UintAt(b, pos).value.next, 2) == Ok(next)
    requires var k := UintAt(b, pos).value;
             if k.value == key
             then OptionalTextAt(b, k.next, 64).Ok? && mid == OptionalTextAt(b, k.next, 64).value.value
                  && !Names(b, next, count - 1, 2, key)
             else mid == was
    requires TextSays(b, next, count - 1, key, mid, text)
    ensures TextSays(b, pos, count, key, was, text)
  {
    hide UintAt, SkipAt, Stands, OptionalTextAt;
    StandsUnfold(b, pos, count, 2, key, next);
    var k := UintAt(b, pos).value;
    if k.value == key {
      assert Stands(b, pos, count, 2, key, k.next);
    } else if Names(b, next, count - 1, 2, key) {
      var at: nat :| Stands(b, next, count - 1, 2, key, at) && OptionalTextAt(b, at, 64).Ok?
                     && text == OptionalTextAt(b, at, 64).value.value;
      assert Stands(b, pos, count, 2, key, at);
    }
  }

  lemma FlagsSplit(b: Bytes, pos: nat, count: nat, f: u64, next: nat)
    requires count > 0 && UintAt(b, pos).Ok? && SkipAt(b, UintAt(b, pos).value.next, 2) == Ok(next)
    ensures BodyFlags(b, pos, count, f) <==>
              (UintAt(b, pos).value.value == 2 && FlagsIn(b, UintAt(b, pos).value.next, f)) || BodyFlags(b, next, count - 1, f)
  {
    hide UintAt, SkipAt, Stands, FlagsIn;
    StandsUnfold(b, pos, count, 2, 2, next);
    if BodyFlags(b, next, count - 1, f) {
      var at: nat :| Stands(b, next, count - 1, 2, 2, at) && FlagsIn(b, at, f);
      assert Stands(b, pos, count, 2, 2, at);
    }
    if UintAt(b, pos).value.value == 2 {
      assert Stands(b, pos, count, 2, 2, UintAt(b, pos).value.next);
    }
  }

  lemma NamesSplit(b: Bytes, pos: nat, count: nat, f: u64, next: nat)
    requires count > 0 && UintAt(b, pos).Ok? && SkipAt(b, UintAt(b, pos).value.next, 2) == Ok(next)
    ensures BodyNames(b, pos, count, f) <==>
              (UintAt(b, pos).value.value == 3 && NamesIn(b, UintAt(b, pos).value.next, f)) || BodyNames(b, next, count - 1, f)
  {
    hide UintAt, SkipAt, Stands, NamesIn;
    StandsUnfold(b, pos, count, 2, 3, next);
    if BodyNames(b, next, count - 1, f) {
      var at: nat :| Stands(b, next, count - 1, 2, 3, at) && NamesIn(b, at, f);
      assert Stands(b, pos, count, 2, 3, at);
    }
    if UintAt(b, pos).value.value == 3 {
      assert Stands(b, pos, count, 2, 3, UintAt(b, pos).value.next);
    }
  }

  lemma LimitsSplit(b: Bytes, pos: nat, count: nat, f: u64, limit: nat, next: nat)
    requires count > 0 && UintAt(b, pos).Ok? && SkipAt(b, UintAt(b, pos).value.next, 2) == Ok(next)
    ensures BodyLimits(b, pos, count, f, limit) <==>
              (UintAt(b, pos).value.value == 3 && LimitsIn(b, UintAt(b, pos).value.next, f, limit))
              || BodyLimits(b, next, count - 1, f, limit)
  {
    hide UintAt, SkipAt, Stands, LimitsIn;
    StandsUnfold(b, pos, count, 2, 3, next);
    if BodyLimits(b, next, count - 1, f, limit) {
      var at: nat :| Stands(b, next, count - 1, 2, 3, at) && LimitsIn(b, at, f, limit);
      assert Stands(b, pos, count, 2, 3, at);
    }
    if UintAt(b, pos).value.value == 3 {
      assert Stands(b, pos, count, 2, 3, UintAt(b, pos).value.next);
    }
  }

  lemma NothingInBody(b: Bytes, pos: nat, w: Welcome, f: u64, key: u64)
    requires |w.limits| == 5 && f < 5
    ensures BodySays(b, pos, 0, w, w, f) && !Names(b, pos, 0, 2, key)
  {
  }

  /** An entry seen before does not stand among the rest, and a map that does not stand says nothing. */
  lemma UnnamedIsSilent(b: Bytes, pos: nat, count: nat, f: u64)
    ensures !Names(b, pos, count, 2, 3) ==> !BodyNames(b, pos, count, f)
  {
  }

  /** One entry in front of the rest of the body. */
  lemma EntrySays(b: Bytes, pos: nat, count: nat, w: Welcome, mid: Welcome, v: Welcome, f: u64, next: nat)
    requires |w.limits| == |mid.limits| == |v.limits| == 5 && f < 5
    requires count > 0 && UintAt(b, pos).Ok? && SkipAt(b, UintAt(b, pos).value.next, 2) == Ok(next)
    requires ValueSays(b, UintAt(b, pos).value.next, UintAt(b, pos).value.value, w, mid, f)
    requires BodySays(b, next, count - 1, mid, v, f)
    requires UintAt(b, pos).value.value <= 3 ==> !Names(b, next, count - 1, 2, UintAt(b, pos).value.value)
    ensures BodySays(b, pos, count, w, v, f)
  {
    hide UintAt, SkipAt, OptionalTextAt, Names, BodyFlags, BodyNames, BodyLimits, FlagsIn, NamesIn, LimitsIn, TextSays;
    FlagsSplit(b, pos, count, f, next);
    NamesSplit(b, pos, count, f, next);
    LimitsSplit(b, pos, count, f, v.limits[f], next);
    UnnamedIsSilent(b, next, count - 1, f);
    TextSplits(b, pos, count, 0, w.name, mid.name, v.name, next);
    TextSplits(b, pos, count, 1, w.version, mid.version, v.version, next);
  }

  lemma {:induction false} EntriesMean(b: Bytes, pos: nat, count: nat, seen: set<u64>, w: Welcome, f: u64, key: u64)
    requires pos <= |b| <= MDU && |w.limits| == 5 && f < 5 && SkipItems(b, pos, 2, 2 * count).Ok?
    ensures WelcomeEntriesAt(b, pos, count, seen, w).Ok? ==>
              && |WelcomeEntriesAt(b, pos, count, seen, w).value.value.limits| == 5
              && BodySays(b, pos, count, w, WelcomeEntriesAt(b, pos, count, seen, w).value.value, f)
              && (key in seen && key <= 3 ==> !Names(b, pos, count, 2, key))
    decreases count
  {
    hide SkipAt, UintAt, WelcomeValueAt, Names, BodySays, ValueSays;
    if count == 0 {
      NothingInBody(b, pos, w, f, key);
    } else if WelcomeEntriesAt(b, pos, count, seen, w).Ok? {
      UintSkips(b, pos, 2);
      var k := UintAt(b, pos).value;
      ValueMeans(b, k.next, k.value, w, f);
      var now := WelcomeValueAt(b, k.next, k.value, w).value;
      var after := Seen(seen, k.value, 3);
      EntriesMean(b, now.next, count - 1, after, now.value, f, k.value);
      EntriesMean(b, now.next, count - 1, after, now.value, f, key);
      EntrySays(b, pos, count, w, now.value, WelcomeEntriesAt(b, pos, count, seen, w).value.value, f, now.next);
      StandsUnfold(b, pos, count, 2, key, now.next);
    }
  }

  /**
   * An accepted WELCOME: a capability is set exactly when the map under key 2 holds `true` for it; a
   * limit is present exactly when the map under key 3 names it, and is then that number, saturated;
   * name and version are the texts under keys 0 and 1; and whatever is not said is zero or empty.
   */
  lemma WelcomeMeans(b: Bytes, f: u64)
    requires f < 5 && WelcomeAt(b).Ok?
    ensures var body := DecodeSpec(b).value.body;
            && ContainerAt(b, body.offset, 5).Ok?
            && var c := ContainerAt(b, body.offset, 5).value;
            && |WelcomeAt(b).value.value.limits| == 5
            && BodySays(b, c.next, c.value, NO_WELCOME, WelcomeAt(b).value.value, f)
  {
    hide DecodeSpec, SkipAt, ContainerAt, SkipItems, WelcomeEntriesAt, BodySays;
    DecodeIsSound(b);
    var body := DecodeSpec(b).value.body;
    ContainerSkips(b, body.offset, 5, 1);
    var c := ContainerAt(b, body.offset, 5).value;
    EntriesMean(b, c.next, c.value, {}, NO_WELCOME, f, 0);
  }
}
