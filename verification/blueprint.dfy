/** The interface of the `blueprint` template engine as the core uses it. The engine
    itself is not part of this model: parsing and rendering are functions supplied by the
    caller, and only their success or failure and their results matter. */
module Blueprint {
  import opened Wrappers

  /** A template variable's value. */
  datatype Value = Str(s: string) | Bool(b: bool)

  /** The bindings templates are rendered with. */
  type Env = map<string, Value>

  /** A parsed template: its text and the variables it refers to (`list_variables`). */
  datatype Template = Template(source: string, variables: seq<string>)

  /** `parse_template`, and `Template::write` into a byte buffer; failures carry the
      engine's message. */
  datatype Engine = Engine(
    parse: string -> Result<Template, string>,
    write: (Template, Env) -> Result<seq<bv8>, string>)
}
