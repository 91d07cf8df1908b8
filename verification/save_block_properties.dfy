/**
  Properties of the save pipeline that relate several calls or follow from
  the PHP array semantics: the settings filter, last-row-wins in the field
  map with first-insertion positions, keyword round trips, and control
  overrides in the registry.
 */
module SaveBlockProperties {
  import opened Wrappers
  import opened OrderedMaps
  import opened PhpStrings
  import opened Controls
  import opened Blocks
  import opened BlockPost

  /** One declaration more overwrites its own name, if it qualifies, and nothing else. */
  lemma FieldSettingsStep(decls: seq<Setting>, submitted: OrderedMap<string>, n: string)
    requires |decls| > 0
    ensures var last := decls[|decls| - 1];
      Get(FieldSettings(decls, submitted), n) ==
        if last.name == n && Qualifies(last, submitted) then Some(Sanitized(last, submitted))
        else Get(FieldSettings(decls[..|decls| - 1], submitted), n)
  {
  }

  /**
    A qualifying declaration that no later qualifying declaration shares its
    name with is the one whose sanitized value is stored: a later
    declaration overwrites an earlier one.
   */
  lemma {:induction false} FieldSettingsLastWins(decls: seq<Setting>, submitted: OrderedMap<string>, j: nat)
    requires j < |decls| && Qualifies(decls[j], submitted)
    requires forall j' :: j < j' < |decls| ==> !(decls[j'].name == decls[j].name && Qualifies(decls[j'], submitted))
    ensures Get(FieldSettings(decls, submitted), decls[j].name) == Some(Sanitized(decls[j], submitted))
    decreases |decls|
  {
    var last := |decls| - 1;
    FieldSettingsStep(decls, submitted, decls[j].name);
    if j < last {
      var front := decls[..last];
      assert front[j] == decls[j];
      forall j' | j < j' < |front|
        ensures !(front[j'].name == front[j].name && Qualifies(front[j'], submitted))
      {
        assert front[j'] == decls[j'];
      }
      FieldSettingsLastWins(front, submitted, j);
    }
  }

  /**
    `DecodeField`'s settings clause unpacked into the two source cases: a
    row with no control (read as registry key "") when nothing is registered
    under "", and a row whose sanitized control is not registered, store no
    settings.
   */
  lemma UnregisteredControlStoresNothing(wp: WordPress, registry: Registry, post: Submission, key: string, name: string, order: nat)
    requires key !in Keys(post.fieldControls) ==> "" !in Keys(registry)
    requires key in Keys(post.fieldControls) ==>
      wp.sanitizeTextField(wp.unslash(GetOr(post.fieldControls, key, ""))) !in Keys(registry)
    ensures DecodeField(wp, registry, post, key, name, order).settings == []
  {
  }

  /** The field map's keys are the initial keys after assigning each row's key in turn. */
  lemma BlockFieldsKeys(wp: WordPress, registry: Registry, initial: OrderedMap<Field>, post: Submission)
    requires post.fieldNames.Some?
    ensures Keys(BlockFields(wp, registry, initial, post)) == KeysAfter(Keys(initial), RowKeys(wp, post.fieldNames.value))
  {
    var decoded := DecodeRows(wp, registry, post, post.fieldNames.value, 0);
    assert BlockFields(wp, registry, initial, post) == InsertAll(initial, decoded);
  }

  /**
    The field map's keys are the initial keys, in place, followed by the
    submitted names; nothing else appears.
   */
  lemma FieldsKeys(wp: WordPress, registry: Registry, initial: OrderedMap<Field>, post: Submission)
    requires post.fieldNames.Some?
    ensures var fields := BlockFields(wp, registry, initial, post);
      && |fields| >= |initial| && Keys(fields)[..|initial|] == Keys(initial)
      && forall n :: n in Keys(fields) <==> n in Keys(initial) || n in RowKeys(wp, post.fieldNames.value)
    ensures Distinct(Keys(initial)) ==> Distinct(Keys(BlockFields(wp, registry, initial, post)))
  {
    BlockFieldsKeys(wp, registry, initial, post);
  }

  /**
    When several rows share a submitted name, the Field of the last of them
    is stored under that name, with that row's position as its order.
   */
  lemma FieldsLastRowWins(wp: WordPress, registry: Registry, initial: OrderedMap<Field>, post: Submission, k: nat)
    requires post.fieldNames.Some? && k < |post.fieldNames.value|
    requires var rows := post.fieldNames.value;
      forall k' :: k < k' < |rows| ==> wp.unslash(rows[k'].1) != wp.unslash(rows[k].1)
    ensures var rows := post.fieldNames.value;
      var n := wp.unslash(rows[k].1);
      Get(BlockFields(wp, registry, initial, post), n) == Some(DecodeField(wp, registry, post, rows[k].0, n, k))
  {
    var rows := post.fieldNames.value;
    var decoded := DecodeRows(wp, registry, post, rows, 0);
    var keys := Keys(decoded);
    assert BlockFields(wp, registry, initial, post) == InsertAll(initial, decoded);
    forall k' | k < k' < |decoded|
      ensures decoded[k'].0 != decoded[k].0
    {
      assert keys[k'] == decoded[k'].0 && keys[k] == decoded[k].0;
    }
    InsertAllLastWins(initial, decoded, k);
    assert keys[k] == decoded[k].0;
  }

  /**
    A name first submitted in an earlier row sits before one first submitted
    in a later row, even when later rows overwrite the earlier entries.
   */
  lemma FieldsFirstPosition(wp: WordPress, registry: Registry, initial: OrderedMap<Field>, post: Submission, a: string, b: string)
    requires post.fieldNames.Some?
    requires a in RowKeys(wp, post.fieldNames.value) && b in RowKeys(wp, post.fieldNames.value)
    requires a !in Keys(initial) && b !in Keys(initial)
    requires IndexOf(RowKeys(wp, post.fieldNames.value), a) < IndexOf(RowKeys(wp, post.fieldNames.value), b)
    ensures var fields := Keys(BlockFields(wp, registry, initial, post));
      IndexOf(fields, a) < IndexOf(fields, b)
  {
    BlockFieldsKeys(wp, registry, initial, post);
    KeysAfterFirstPosition(Keys(initial), RowKeys(wp, post.fieldNames.value), a, b);
  }

  /**
    Keywords round trip: storing the comma-joined list of trimmed,
    comma-free keywords gives back the first three of them.
   */
  lemma KeywordsRoundTrip(ks: seq<string>)
    requires |ks| >= 1
    requires forall i :: 0 <= i < |ks| ==> ',' !in ks[i] && Trimmed(ks[i])
    ensures Keywords(Implode(ks, ',')) == Take(ks, KeywordLimit)
  {
    var joined := Implode(ks, ',');
    ExplodeImplode(ks, ',');
    var r := Keywords(joined);
    var expected := Take(ks, KeywordLimit);
    forall i | 0 <= i < |r|
      ensures r[i] == expected[i]
    {
      TrimTrimmed(ks[i]);
    }
  }

  /** An empty keywords input stores one empty keyword, since `explode` of "" is [""]. */
  lemma KeywordsOfEmpty()
    ensures Keywords("") == [""]
  {
    TrimSplits("", "", "");
  }

  /** The pieces of "a, b, c, d" trim to their letters. */
  lemma TrimmedLetters()
    ensures Trim("a") == "a" && Trim(" b") == "b" && Trim(" c") == "c"
  {
    assert Trimmed("a") && Trimmed("b") && Trimmed("c");
    assert AllTrimChars(" ") && AllTrimChars("");
    assert "" + "a" + "" == "a" && " " + "b" + "" == " b" && " " + "c" + "" == " c";
    TrimSplits("", "a", "");
    TrimSplits(" ", "b", "");
    TrimSplits(" ", "c", "");
  }

  /** "a, b, c, d" stores exactly ["a", "b", "c"]. */
  lemma KeywordsTruncate()
    ensures Keywords("a, b, c, d") == ["a", "b", "c"]
  {
    KeywordsOfFourPieces("a, b, c, d");
  }

  /** The steps of `KeywordsTruncate`, with the input kept symbolic. */
  lemma KeywordsOfFourPieces(s: string)
    requires s == "a, b, c, d"
    ensures Keywords(s) == ["a", "b", "c"]
  {
    var pieces := ["a", " b", " c", " d"];
    assert Implode(pieces, ',') == s;
    ExplodeImplode(pieces, ',');
    TrimmedLetters();
    var r := Keywords(s);
    assert |r| == 3;
    assert r[0] == "a" && r[1] == "b" && r[2] == "c";
    ThreeElements(r, "a", "b", "c");
  }

  lemma ThreeElements<T>(r: seq<T>, a: T, b: T, c: T)
    requires |r| == 3 && r[0] == a && r[1] == b && r[2] == c
    ensures r == [a, b, c]
  {
  }

  /**
    A control registered through the filter replaces a built-in of the same
    name, or is added; the last registration under a name wins.
   */
  lemma RegistrationOverrides(make: string -> Control, registrations: OrderedMap<Control>, i: nat)
    requires i < |registrations|
    requires forall j :: i < j < |registrations| ==> registrations[j].0 != registrations[i].0
    ensures Get(RegisterControls(make, registrations), registrations[i].0) == Some(registrations[i].1)
  {
    InsertAllLastWins(Builtins(make), registrations, i);
  }
}
