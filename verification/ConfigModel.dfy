/** Configurations as maps from leaf paths to values, with the type tree they conform to. */
module ConfigModel {
  import opened Options

  type Path = seq<string>

  /** A plugin setting is text, or absent (JSON null). */
  type Plugins = map<string, map<string, Option<string>>>

  datatype Value =
    | Str(s: string)
    | Num(n: int)
    | Flag(b: bool)
    | List(items: seq<string>)
    | Table(plugins: Plugins)

  /** A nil pointer is a path that is missing from the map. */
  type Config = map<Path, Value>

  datatype Kind = KString | KBool | KInt | KList | KTable

  /** An embedded struct is a field under the name of its type. */
  datatype Field = Field(name: string, ty: Type) | Embedded(name: string, ty: Type)

  /** A value struct, a pointer to a struct, or a scalar, list or map. */
  datatype Type =
    | Section(fields: seq<Field>)
    | SectionPtr(fields: seq<Field>)
    | Leaf(kind: Kind)
}
