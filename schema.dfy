/** What reflection tells GuicyFig about a configuration interface: its
    methods with their return types and @Key / @Default annotations, and
    whether it is marked @FigSingleton. */
module Schema {
  import opened Lang

  /** The return types add() dispatches on; OtherType is any other class. */
  datatype ReturnType =
    | IntType | IntegerType | StringType | LongType | LongBoxedType | BooleanType
    | BooleanBoxedType | OtherType(className: string)

  /** A declared accessor method. */
  datatype Method = Method(
    declaringClass: string,
    name: string,
    returnType: ReturnType,
    keyAnnotation: Option<string>,
    defaultAnnotation: Option<string>)

  /** A configuration interface: its canonical name, declared methods, the
      @FigSingleton marker and its defaults properties file (empty when the
      file is missing). */
  datatype FigInterface = FigInterface(
    canonicalName: string,
    methods: seq<Method>,
    figSingleton: bool,
    defaults: map<string, string>)
}
