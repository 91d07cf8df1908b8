# Block post type save pipeline — a Dafny model

This project models the core of the Advanced Custom Blocks plugin's `Block_Post`
component (`php/post-types/class-block-post.php`). The component lets an
administrator define a custom block type on an edit screen. When the post is
saved, the `wp_insert_post_data` filter `save_block` turns the flat form
submission into a Block:

- a name and a title, each falling back to the post id;
- a category, an icon and a description;
- at most three keywords;
- an ordered array of Fields. Each Field has a name, a label, a control, an
  order counter and the settings its control declares.

The filter then writes the Block's JSON into `post_content`. Around the save
pipeline the model covers three more pieces:

- the control registry (`register_controls`);
- registry-guarded settings dispatch (`render_field_settings`);
- the list-table row-action filter (`post_row_actions`).

Modules, leaves first:

- `Wrappers` (`wrappers.dfy`): `Option`.
- `OrderedMaps` (`ordered_maps.dfy`): PHP ordered arrays as sequences of
  key/value pairs. Reads find a key's first entry. Assignment overwrites in
  place or appends (`Upsert`). The module also has repeated assignment
  (`InsertAll`) and `unset` (`Remove`).
- `PhpStrings` (`php_strings.dfy`): `explode`, its inverse `implode`, `trim`
  and `array_slice($a, 0, $n)`, written out concretely.
- `Controls` (`controls.dfy`): settings, controls, the registry, the seven
  built-ins and the filter's registrations.
- `Blocks` (`blocks.dfy`): the `Field` and `Block` records.
- `BlockPost` (`block_post.dfy`): the save pipeline, settings dispatch and
  row actions.
- `SaveBlockProperties` (`save_block_properties.dfy`): lemmas that relate
  several calls.

The model takes these as plain inputs:

- WordPress's `sanitize_key`, `sanitize_text_field`, `sanitize_textarea_field`
  and `wp_unslash`;
- the autosave/revision test;
- `Block::to_json`.

All of them are uninterpreted function values in a `WordPress` record. The
request's `$_POST` becomes a `Submission` record: a scalar input is `None` when
it is not set. A setting's sanitize callable is an `Option` of a function;
`None` means `is_callable` fails. The value of `new Block()` is the `initial`
parameter, because the Block class is not part of this model.

Behaviours of the code worth knowing:

- The fields array is keyed by the raw, unslashed submitted name (line 759).
  It is not keyed by the sanitized `Field.name` (line 723). So two rows whose
  names differ only in what `sanitize_key` removes become two entries.
- The name fallback applies when `sanitize_key(post_name)` is empty. The title
  fallback applies when `sanitize_text_field(post_title)` is empty.
- A missing `post_ID` is not an error. The filter returns `$data` unchanged.
- A row with no control uses PHP's `null` array key, which reads as `""`. Such
  a row gets settings only if a control is registered under `""`
  (`Controls.RegistryKey`).
- Duplicate row names: the last row's Field wins, including its `order`. The
  entry stays at the position of the name's first insertion.

## Model

| member | source | states |
|---|---|---|
| OrderedMaps.Upsert | php/post-types/class-block-post.php:759 | assigning a key stores the value under it and changes no other key's value. An existing key keeps its position; a new key is appended (`AssignKey`). |
| OrderedMaps.Get | php/post-types/class-block-post.php:742-743 | a key is found exactly when it is one of the array's keys |
| OrderedMaps.GetAt | php/post-types/class-block-post.php:742-743 | a present key reads the value at its first position |
| OrderedMaps.KeysAfter | php/post-types/class-block-post.php:719-761 | repeated assignment keeps the original keys as an unchanged prefix. The keys are exactly the original and the assigned ones, and distinct keys stay distinct. |
| OrderedMaps.InsertAll | php/post-types/class-block-post.php:719-761 | after repeated assignment the keys are those `KeysAfter` lays out. A key that is never assigned keeps its value. |
| OrderedMaps.LastValue | php/post-types/class-block-post.php:759 | a value is found from the end exactly when the key was assigned |
| OrderedMaps.LastValueAt | php/post-types/class-block-post.php:759 | the entry that no later entry shares its key with is the one found from the end |
| OrderedMaps.InsertAllGet | php/post-types/class-block-post.php:719-761 | after repeated assignment a key reads its last assigned value, or its original value if it was never assigned |
| OrderedMaps.InsertAllLastWins | php/post-types/class-block-post.php:759 | an assignment that no later assignment to the same key overwrites is what the key holds afterwards |
| OrderedMaps.AssignKeyKeeps | php/post-types/class-block-post.php:759 | assigning any key leaves an existing key at its position |
| OrderedMaps.AssignKeyNew | php/post-types/class-block-post.php:759 | assigning a new key puts it after all existing keys |
| OrderedMaps.KeysAfterFirstPosition | php/post-types/class-block-post.php:759 | new keys are laid out in the order of their first assignment. Later overwrites do not move them. |
| OrderedMaps.Remove | php/post-types/class-block-post.php:813-815 | `unset` leaves the key absent and every other key present. An absent key leaves the array unchanged. |
| OrderedMaps.RemoveDistinct | php/post-types/class-block-post.php:813-815 | on an array with distinct keys, `unset` removes exactly the entry at the key's position and keeps the rest in order |
| PhpStrings.Explode | php/post-types/class-block-post.php:700 | `explode` yields one more piece than there are separators, so "" yields one piece. No piece contains the separator. |
| PhpStrings.ImplodeExplode | php/post-types/class-block-post.php:700 | joining the pieces with the separator gives back the input |
| PhpStrings.ExplodeImplode | php/post-types/class-block-post.php:700 | splitting a join of one or more separator-free pieces gives back the pieces |
| PhpStrings.TrimLeft | php/post-types/class-block-post.php:701 | the result is a suffix of the input. Only trim characters were dropped, and the result does not start with one. |
| PhpStrings.TrimRight | php/post-types/class-block-post.php:701 | the result is a prefix of the input. Only trim characters were dropped, and the result does not end with one. |
| PhpStrings.Trim | php/post-types/class-block-post.php:701 | `trim` is `rtrim` of `ltrim`: the result is no longer than the input, and neither of its ends is a trim character |
| PhpStrings.TrimLeftSkips | php/post-types/class-block-post.php:701 | `ltrim` removes exactly a leading run of trim characters |
| PhpStrings.TrimRightSkips | php/post-types/class-block-post.php:701 | `rtrim` removes exactly a trailing run of trim characters |
| PhpStrings.TrimSplits | php/post-types/class-block-post.php:701 | if a string is trim characters, then a core with no trim character at either end, then trim characters, `trim` returns that core |
| PhpStrings.Take | php/post-types/class-block-post.php:702 | `array_slice($a, 0, $n)` is the first min(n, count) elements |
| Controls.RegisterControls | php/post-types/class-block-post.php:72-84 | the built-ins stay first, in order, and registry keys are distinct. The keys are exactly the built-ins and the registered names. A built-in that is not overridden keeps its own control. |
| Controls.Lookup | php/post-types/class-block-post.php:742-743 | a control is found exactly when its registry key (`""` for no control) is registered |
| BlockPost.Keywords | php/post-types/class-block-post.php:700-704 | the result has between 1 and 3 keywords: min(3, pieces). Keyword i is the i-th comma-separated piece, trimmed, and no keyword contains a comma. |
| BlockPost.FieldSettings | php/post-types/class-block-post.php:744-754 | a setting is stored exactly when some declaration with its name was submitted for the row and has a callable sanitizer |
| BlockPost.DecodeField | php/post-types/class-block-post.php:720-757 | the Field name is the sanitized name and its order is the counter value. A label or control is present exactly when submitted, and sanitized. A missing control (registry key `""`) or an unregistered one stores no settings. A registered control stores exactly the qualifying declared settings. Those settings are the control's declared settings run through `FieldSettings` with the row's submitted values. |
| BlockPost.DecodeRows | php/post-types/class-block-post.php:715-761 | row k is keyed by its unslashed name (`RowKeys`) and decodes with counter value k from the start. The counter does not depend on the row keys. |
| BlockPost.BlockFields | php/post-types/class-block-post.php:714-762 | without submitted rows the fields are the fresh Block's; with rows the fresh Block's keys stay an unchanged prefix (the values are given by FieldsLastRowWins and InsertAllGet) |
| BlockPost.BuildBlock | php/post-types/class-block-post.php:669-762 | name and title fall back to the post id exactly when their sanitized value is '', so neither is empty when the id is not. Category, icon, keywords and description are set, sanitized, only when submitted; otherwise they keep the fresh Block's values. Without submitted rows the fresh Block's fields are kept; with rows the fields are `BlockFields`. |
| BlockPost.SaveBlock | php/post-types/class-block-post.php:654-766 | the data comes back unchanged without a post id, or for an autosave or revision. Otherwise only `post_content` changes, to the encoded Block, and the order of the other entries is kept. |
| BlockPost.RenderFieldSettings | php/post-types/class-block-post.php:613-617 | dispatch happens exactly when the field's control is registered. It goes to that control, with the same field and uid. |
| BlockPost.PostRowActions | php/post-types/class-block-post.php:804-819 | for other post types the actions are unchanged. For `acb_block`, exactly the Quick Edit key disappears, with every other action kept in order. |
| SaveBlockProperties.FieldSettingsLastWins | php/post-types/class-block-post.php:744-754 | a qualifying declaration that no later qualifying declaration of the same name overwrites is what gets stored: `sanitize(raw)` |
| SaveBlockProperties.UnregisteredControlStoresNothing | php/post-types/class-block-post.php:742 | unpacks `DecodeField`'s settings clause into the two source cases: a row with no control, when nothing is registered under `""`, and a row whose sanitized control is not registered, get no settings |
| SaveBlockProperties.BlockFieldsKeys | php/post-types/class-block-post.php:715-762 | the Block's field keys are the fresh Block's keys after assigning each row's unslashed name in turn |
| SaveBlockProperties.FieldsKeys | php/post-types/class-block-post.php:715-762 | the Block's field keys are the fresh Block's keys, unmoved, plus the submitted names, and nothing else. Distinct keys stay distinct. |
| SaveBlockProperties.FieldsLastRowWins | php/post-types/class-block-post.php:719-761 | when rows share a name, the Field decoded from the last of them is stored, with that row's position as its order |
| SaveBlockProperties.FieldsFirstPosition | php/post-types/class-block-post.php:759 | among names the fresh Block does not already hold, a name first submitted in an earlier row is stored before one first submitted later, even after overwrites |
| SaveBlockProperties.KeywordsRoundTrip | php/post-types/class-block-post.php:700-704 | storing the comma-joined list of one or more trimmed, comma-free keywords gives back its first three |
| SaveBlockProperties.KeywordsOfEmpty | php/post-types/class-block-post.php:700-704 | an empty keywords input stores the single keyword "" |
| SaveBlockProperties.KeywordsTruncate | php/post-types/class-block-post.php:700-704 | "a, b, c, d" stores exactly ["a", "b", "c"] |
| SaveBlockProperties.RegistrationOverrides | php/post-types/class-block-post.php:73-83 | a registration that no later registration of the same name overrides is what the registry holds, whether it replaces a built-in or adds a new control |

## Left out

- Post type and capability registration (`register_post_type`, `add_caps`): these are WordPress configuration calls with no logic of their own.
- Script and style enqueueing, the list-table CSS and the title placeholder: UI plumbing that depends on the current admin screen.
- All meta-box HTML rendering, including the template-file existence check: output and filesystem I/O.
- `ajax_field_settings`: output buffering, nonce checking and the JSON response transport. Its dispatch step is `RenderFieldSettings`.
- The nonce and referer checks (`check_admin_referer`): a failed check ends the request and is outside the model.
- The Block, Field and control classes, the built-in controls' settings, `render_settings` and `Block::to_json` are not part of this model. The encoder and the built-in control objects are parameters. A Field is the configuration array handed to its constructor.
- Decoding the stored JSON back into a Block happens in the Block class, which is not part of this model, so no encode/decode round trip is stated.
- Controls.RegisterControls: the `acb_controls` filter is modelled as a sequence of add-or-replace registrations. A filter callback that removes or reorders controls, or returns something other than an array, is not modelled.
- BlockPost.RenderFieldSettings: a Field with no control (`None`) is looked up under registry key `""`, as PHP's `null` array key reads. `render_field_settings` reads `$field->control` from a Field object, and the default control of a Field built without configuration is set by the Field class, which is not part of this model; the model assumes that default is `null`.
- PHP's conversion of numeric-string array keys to integers is not modelled. Keys stay strings, which keeps the same key identity for the strings the form produces.
- `$_POST` entries whose shape differs from the form's, such as an array where a string is expected, are not modelled. Neither is a registry entry holding `null`, which `isset` would skip.
