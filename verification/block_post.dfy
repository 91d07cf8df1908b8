/**
  The block post type's save pipeline (`Block_Post::save_block`) and the
  small registry-driven pieces around it: settings dispatch and the
  list-table row-action filter.

  WordPress itself is not modelled: its sanitizers, `wp_unslash`, the
  autosave/revision test and the Block's JSON encoder are uninterpreted functions
  supplied in a `WordPress` value, and the request's `$_POST` is a
  `Submission` record.
 */
module BlockPost {
  import opened Wrappers
  import opened OrderedMaps
  import opened PhpStrings
  import opened Controls
  import opened Blocks

  /** The custom post type's slug. */
  const PostTypeSlug := "acb_block"

  /** The row action key of the Quick Edit link. */
  const QuickEditAction := "inline hide-if-no-js"

  /** The key of `$data` that receives the encoded block. */
  const PostContent := "post_content"

  /** At most this many keywords are stored. */
  const KeywordLimit: nat := 3

  /** The WordPress functions the pipeline calls, left uninterpreted. */
  datatype WordPress = WordPress(
    sanitizeKey: string -> string,
    sanitizeTextField: string -> string,
    sanitizeTextareaField: string -> string,
    unslash: string -> string,
    isAutosaveOrRevision: string -> bool,
    toJson: Block -> string)

  /**
    The submitted form. Scalar inputs are `None` when not set. `fieldNames`
    is `None` when 'acb-fields-name' is missing or not an array; the other
    per-row collections are keyed by the same row keys and are empty when
    missing.
   */
  datatype Submission = Submission(
    postId: Option<string>,
    category: Option<string>,
    icon: Option<string>,
    keywords: Option<string>,
    description: Option<string>,
    fieldNames: Option<OrderedMap<string>>,
    fieldLabels: OrderedMap<string>,
    fieldControls: OrderedMap<string>,
    fieldSettings: OrderedMap<OrderedMap<string>>)

  /** The post data array the `wp_insert_post_data` filter receives and returns. */
  type PostData = OrderedMap<string>

  /**
    The stored keywords for an already sanitized input: split on commas,
    trim each piece, keep the first three.
   */
  function Keywords(sanitized: string): (r: seq<string>)
    ensures 1 <= |r| <= KeywordLimit
    ensures var pieces := Occurrences(sanitized, ',') + 1;
      |r| == if pieces < KeywordLimit then pieces else KeywordLimit
    ensures forall i :: 0 <= i < |r| ==> r[i] == Trim(Explode(sanitized, ',')[i])
    ensures forall i :: 0 <= i < |r| ==> ',' !in r[i]
  {
    var pieces := Explode(sanitized, ',');
    var trimmed := seq(|pieces|, i requires 0 <= i < |pieces| => Trim(pieces[i]));
    assert forall i :: 0 <= i < |trimmed| ==> ',' !in trimmed[i] by {
      forall i | 0 <= i < |trimmed|
        ensures ',' !in trimmed[i]
      {
        assert TrimRight(TrimLeft(pieces[i])) == trimmed[i];
      }
    }
    Take(trimmed, KeywordLimit)
  }

  /** A declared setting is stored only if it was submitted and its sanitizer is callable. */
  predicate Qualifies(s: Setting, submitted: OrderedMap<string>) {
    s.name in Keys(submitted) && s.sanitize.Some?
  }

  /** The sanitizer applied to the submitted raw value. */
  function Sanitized(s: Setting, submitted: OrderedMap<string>): PhpValue
    requires Qualifies(s, submitted)
  {
    s.sanitize.value(GetOr(submitted, s.name, ""))
  }

  /**
    A field's settings: walk the control's declared settings in order and
    store `sanitize(raw)` for each that qualifies. The keys are exactly the
    names of qualifying declared settings.
   */
  function FieldSettings(decls: seq<Setting>, submitted: OrderedMap<string>): (r: OrderedMap<PhpValue>)
    ensures forall n :: n in Keys(r) <==>
      exists j :: 0 <= j < |decls| && decls[j].name == n && Qualifies(decls[j], submitted)
    decreases |decls|
  {
    if |decls| == 0 then []
    else
      var n := |decls| - 1;
      var acc := FieldSettings(decls[..n], submitted);
      var s := decls[n];
      assert forall j :: 0 <= j < n ==> decls[..n][j] == decls[j];
      if Qualifies(s, submitted) then Upsert(acc, s.name, Sanitized(s, submitted)) else acc
  }

  /**
    One row of the fields table: the Field built from the row with key
    `key`, unslashed submitted name `name` and counter value `order`.
   */
  function DecodeField(wp: WordPress, registry: Registry, post: Submission, key: string, name: string, order: nat): (r: Field)
    ensures r.name == wp.sanitizeKey(name) && r.order == order
    ensures r.labelText.Some? <==> key in Keys(post.fieldLabels)
    ensures r.labelText.Some? ==>
      r.labelText.value == wp.sanitizeTextField(wp.unslash(GetOr(post.fieldLabels, key, "")))
    ensures r.control.Some? <==> key in Keys(post.fieldControls)
    ensures r.control.Some? ==>
      r.control.value == wp.sanitizeTextField(wp.unslash(GetOr(post.fieldControls, key, "")))
    ensures Lookup(registry, r.control).None? ==> r.settings == []
    ensures Lookup(registry, r.control).Some? ==>
      var decls := Lookup(registry, r.control).value.settings;
      var submitted := GetOr(post.fieldSettings, key, []);
      forall n :: n in Keys(r.settings) <==>
        exists j :: 0 <= j < |decls| && decls[j].name == n && Qualifies(decls[j], submitted)
    ensures Lookup(registry, r.control).Some? ==>
      r.settings == FieldSettings(Lookup(registry, r.control).value.settings, GetOr(post.fieldSettings, key, []))
  {
    var labelText := match Get(post.fieldLabels, key)
      case Some(l) => Some(wp.sanitizeTextField(wp.unslash(l)))
      case None => None;
    var control := match Get(post.fieldControls, key)
      case Some(c) => Some(wp.sanitizeTextField(wp.unslash(c)))
      case None => None;
    var settings := match Lookup(registry, control)
      case Some(c) => FieldSettings(c.settings, GetOr(post.fieldSettings, key, []))
      case None => [];
    Field(wp.sanitizeKey(name), labelText, control, order, settings)
  }

  /** The keys the rows are stored under: each row's unslashed name, in row order. */
  function RowKeys(wp: WordPress, rows: OrderedMap<string>): (ks: seq<string>)
    ensures |ks| == |rows|
    ensures forall k :: 0 <= k < |rows| ==> ks[k] == wp.unslash(rows[k].1)
  {
    seq(|rows|, k requires 0 <= k < |rows| => wp.unslash(rows[k].1))
  }

  /**
    The rows of 'acb-fields-name', in submission order, each paired with the
    key it is stored under in the Block's fields. The counter starts at
    `start` and goes up by one per row whatever the row keys are.
   */
  function DecodeRows(wp: WordPress, registry: Registry, post: Submission, rows: OrderedMap<string>, start: nat)
    : (r: OrderedMap<Field>)
    ensures Keys(r) == RowKeys(wp, rows)
    ensures forall k :: 0 <= k < |rows| ==>
      r[k].1 == DecodeField(wp, registry, post, rows[k].0, wp.unslash(rows[k].1), start + k)
    decreases |rows|
  {
    if |rows| == 0 then []
    else
      var name := wp.unslash(rows[0].1);
      var rest := DecodeRows(wp, registry, post, rows[1..], start + 1);
      assert RowKeys(wp, rows) == [name] + RowKeys(wp, rows[1..]);
      [(name, DecodeField(wp, registry, post, rows[0].0, name, start))] + rest
  }

  /** `$value`, or the post id when `$value` is ''. */
  function OrPostId(value: string, postId: string): string {
    if value == "" then postId else value
  }

  /** The unsanitized post slug and title; a missing entry reads as PHP null, i.e. ''. */
  function PostName(data: PostData): string {
    GetOr(data, "post_name", "")
  }

  function PostTitle(data: PostData): string {
    GetOr(data, "post_title", "")
  }

  /**
    The Block's fields: every row of 'acb-fields-name' assigned into
    `initial` under its unslashed submitted name, in submission order.
   */
  function BlockFields(wp: WordPress, registry: Registry, initial: OrderedMap<Field>, post: Submission)
    : (r: OrderedMap<Field>)
    ensures post.fieldNames.None? ==> r == initial
    ensures post.fieldNames.Some? ==> |r| >= |initial| && Keys(r)[..|initial|] == Keys(initial)
  {
    match post.fieldNames
    case Some(rows) => InsertAll(initial, DecodeRows(wp, registry, post, rows, 0))
    case None => initial
  }

  /**
    The Block `save_block` builds for post `postId`, starting from `initial`,
    the value of `new Block()`.
   */
  function BuildBlock(wp: WordPress, registry: Registry, initial: Block, post: Submission, data: PostData, postId: string)
    : (r: Block)
    ensures wp.sanitizeKey(PostName(data)) != "" ==> r.name == wp.sanitizeKey(PostName(data))
    ensures wp.sanitizeKey(PostName(data)) == "" ==> r.name == postId
    ensures wp.sanitizeTextField(PostTitle(data)) != "" ==> r.title == wp.sanitizeTextField(PostTitle(data))
    ensures wp.sanitizeTextField(PostTitle(data)) == "" ==> r.title == postId
    ensures postId != "" ==> r.name != "" && r.title != ""
    ensures post.category.None? ==> r.category == initial.category
    ensures post.category.Some? ==> r.category == wp.sanitizeKey(post.category.value)
    ensures post.icon.None? ==> r.icon == initial.icon
    ensures post.icon.Some? ==> r.icon == wp.sanitizeTextField(wp.unslash(post.icon.value))
    ensures post.keywords.None? ==> r.keywords == initial.keywords
    ensures post.keywords.Some? ==>
      r.keywords == Keywords(wp.sanitizeTextField(wp.unslash(post.keywords.value)))
    ensures post.description.None? ==> r.description == initial.description
    ensures post.description.Some? ==>
      r.description == wp.sanitizeTextareaField(wp.unslash(post.description.value))
    ensures post.fieldNames.None? ==> r.fields == initial.fields
    ensures post.fieldNames.Some? ==> r.fields == BlockFields(wp, registry, initial.fields, post)
  {
    var name := OrPostId(wp.sanitizeKey(PostName(data)), postId);
    var title := OrPostId(wp.sanitizeTextField(PostTitle(data)), postId);
    var category := match post.category
      case Some(c) => wp.sanitizeKey(c)
      case None => initial.category;
    var icon := match post.icon
      case Some(i) => wp.sanitizeTextField(wp.unslash(i))
      case None => initial.icon;
    var keywords := match post.keywords
      case Some(k) => Keywords(wp.sanitizeTextField(wp.unslash(k)))
      case None => initial.keywords;
    var description := match post.description
      case Some(d) => wp.sanitizeTextareaField(wp.unslash(d))
      case None => initial.description;
    var fields := BlockFields(wp, registry, initial.fields, post);
    Block(name, title, category, icon, keywords, description, fields)
  }

  /**
    `save_block`, the `wp_insert_post_data` filter: returns `data` unchanged
    when no post id was submitted or the post is an autosave or revision;
    otherwise sets only its 'post_content' entry to the encoded Block.
   */
  function SaveBlock(wp: WordPress, registry: Registry, initial: Block, post: Submission, data: PostData): (r: PostData)
    ensures post.postId.None? ==> r == data
    ensures post.postId.Some? && wp.isAutosaveOrRevision(wp.sanitizeKey(post.postId.value)) ==> r == data
    ensures post.postId.Some? && !wp.isAutosaveOrRevision(wp.sanitizeKey(post.postId.value)) ==>
      var block := BuildBlock(wp, registry, initial, post, data, wp.sanitizeKey(post.postId.value));
      && Get(r, PostContent) == Some(wp.toJson(block))
      && (forall k :: k != PostContent ==> Get(r, k) == Get(data, k))
      && (PostContent in Keys(data) ==> Keys(r) == Keys(data))
      && (PostContent !in Keys(data) ==> Keys(r) == Keys(data) + [PostContent])
  {
    match post.postId
    case None => data
    case Some(raw) =>
      var postId := wp.sanitizeKey(raw);
      if wp.isAutosaveOrRevision(postId) then data
      else Upsert(data, PostContent, wp.toJson(BuildBlock(wp, registry, initial, post, data, postId)))
  }

  /** A call of the registered control's `render_settings` for `field`. */
  datatype SettingsRender = SettingsRender(control: Control, field: Field, uid: string)

  /**
    `render_field_settings`: dispatch to the registered control named by the
    field, or render nothing when that control is not registered.
   */
  function RenderFieldSettings(registry: Registry, field: Field, uid: string): (r: Option<SettingsRender>)
    ensures r.Some? <==> RegistryKey(field.control) in Keys(registry)
    ensures r.Some? ==>
      && Some(r.value.control) == Get(registry, RegistryKey(field.control))
      && r.value.field == field && r.value.uid == uid
  {
    match Lookup(registry, field.control)
    case Some(c) => Some(SettingsRender(c, field, uid))
    case None => None
  }

  /**
    `post_row_actions`: on the block post type's list, drop the Quick Edit
    link and keep every other action in order; other post types' actions are
    returned unchanged.
   */
  function PostRowActions(postType: string, actions: OrderedMap<string>): (r: OrderedMap<string>)
    ensures postType != PostTypeSlug ==> r == actions
    ensures postType == PostTypeSlug ==>
      forall k :: k in Keys(r) <==> k in Keys(actions) && k != QuickEditAction
    ensures QuickEditAction !in Keys(actions) ==> r == actions
    ensures postType == PostTypeSlug && QuickEditAction in Keys(actions) && Distinct(Keys(actions)) ==>
      var i := IndexOf(Keys(actions), QuickEditAction);
      r == actions[..i] + actions[i + 1..]
  {
    if postType != PostTypeSlug then actions
    else if QuickEditAction in Keys(actions) then
      if Distinct(Keys(actions)) then
        RemoveDistinct(actions, QuickEditAction);
        Remove(actions, QuickEditAction)
      else Remove(actions, QuickEditAction)
    else actions
  }
}
