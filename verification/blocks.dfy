/**
  The records the save pipeline builds: a Block (a custom block type's
  definition) and its Fields.
 */
module Blocks {
  import opened Wrappers
  import opened OrderedMaps
  import opened Controls

  /**
    One field as configured on the edit screen: the configuration array the
    save pipeline hands to the Field constructor. `labelText` and `control`
    are `None` when the configuration has no such key; `settings` is empty
    exactly when the configuration has no 'settings' key.
   */
  datatype Field = Field(
    name: string,
    labelText: Option<string>,
    control: Option<string>,
    order: nat,
    settings: OrderedMap<PhpValue>)

  /**
    A block definition. `fields` is a PHP array keyed by the submitted
    (unslashed) field name, in insertion order.
   */
  datatype Block = Block(
    name: string,
    title: string,
    category: string,
    icon: string,
    keywords: seq<string>,
    description: string,
    fields: OrderedMap<Field>)
}
