/** The part of yaml-cpp the loaders rely on, as values: a loaded document is
    a tree of nodes, and a lookup result is either a node of the tree or a
    "zombie" standing for a key that is not there. Reading a file or a string
    into a tree (YAML::LoadFile, YAML::Load) is outside this model: the tree
    is a parameter, and so is the ParserError or BadFile that loading
    may raise instead. Null nodes are not distinguished from scalars. */
module Yaml {
  import opened Wrappers

  datatype Node =
    | Scalar(text: string)
    | Mapping(entries: map<string, Node>)
    | Sequence(items: seq<Node>)

  /** What `node[key]` returns on a const YAML::Node. */
  datatype Ref = Defined(node: Node) | Zombie(key: string)

  /** The YAML::Exception subclasses the loaders can raise. */
  datatype YamlError =
    | InvalidNode(key: string)      // a zombie was indexed or converted
    | BadSubscript(key: string)     // a scalar was indexed
    | BadConversion                 // a mapping or sequence was read as a string
    | ParserError(message: string)  // YAML::ParserException: the text is not valid YAML
    | BadFile(filename: string)     // YAML::BadFile: LoadFile could not open the file
  {
    /** The exception's what() text, as yaml-cpp builds it. */
    function What(): string {
      match this
      case InvalidNode(k) => "invalid node; first invalid key: \"" + k + "\""
      case BadSubscript(k) => "operator[] call on a scalar (key: \"" + k + "\")"
      case BadConversion => "bad conversion"
      case ParserError(m) => m
      case BadFile(f) => "bad file: " + f
    }
  }

  /** `parent[key]`: indexing a zombie throws InvalidNode, indexing a scalar
      throws BadSubscript, a key missing from a mapping (or any string key on
      a sequence) yields a zombie. */
  function Lookup(parent: Ref, key: string): (r: Result<Ref, YamlError>)
    ensures r.Success? <==> parent.Defined? && !parent.node.Scalar?
    ensures r.Success? ==> (r.value.Defined? <==> parent.node.Mapping? && key in parent.node.entries)
    ensures r.Success? && r.value.Defined? ==> r.value.node == parent.node.entries[key]
  {
    match parent
    case Zombie(k) => Failure(InvalidNode(k))
    case Defined(Scalar(_)) => Failure(BadSubscript(key))
    case Defined(Sequence(_)) => Success(Zombie(key))
    case Defined(Mapping(m)) => if key in m then Success(Defined(m[key])) else Success(Zombie(key))
  }

  /** `node.as<std::string>()`. */
  function AsString(r: Ref): (s: Result<string, YamlError>)
    ensures s.Success? <==> r.Defined? && r.node.Scalar?
    ensures s.Success? ==> s.value == r.node.text
  {
    match r
    case Zombie(k) => Failure(InvalidNode(k))
    case Defined(Scalar(t)) => Success(t)
    case Defined(_) => Failure(BadConversion)
  }

  /** `node.as<std::string>(fallback)`: the fallback whenever the node is
      missing or not a scalar. */
  function AsStringOr(r: Ref, fallback: string): (s: string)
    ensures r.Defined? && r.node.Scalar? ==> s == r.node.text
    ensures !(r.Defined? && r.node.Scalar?) ==> s == fallback
  {
    match r
    case Defined(Scalar(t)) => t
    case _ => fallback
  }

  /** `parent[key].as<std::string>()`: the text of a scalar stored under `key`. */
  function GetString(parent: Ref, key: string): (s: Result<string, YamlError>)
    ensures s.Success? <==> parent.Defined? && parent.node.Mapping? && key in parent.node.entries
                            && parent.node.entries[key].Scalar?
    ensures s.Success? ==> s.value == parent.node.entries[key].text
  {
    var child :- Lookup(parent, key);
    AsString(child)
  }

  /** The exceptions a loader that does not catch them lets escape. */
  datatype Exception = YamlException(error: YamlError) | RuntimeError(what: string)

  function Throw<T>(r: Result<T, YamlError>): (t: Result<T, Exception>)
    ensures t.Success? <==> r.Success?
    ensures t.Success? ==> t.value == r.value
    ensures t.Failure? ==> t.error == YamlException(r.error)
  {
    match r
    case Success(v) => Success(v)
    case Failure(e) => Failure(YamlException(e))
  }

  /** How a loader returning std::expected<T, std::string> ends when it does
      not catch yaml-cpp's exceptions itself: it returns a value, it returns
      an error (std::unexpected), or yaml-cpp throws. */
  datatype Attempt<+T> = Value(value: T) | Unexpected(message: string) | Thrown(error: YamlError) {
    predicate IsFailure() { !Value? }

    function PropagateFailure<U>(): Attempt<U>
      requires IsFailure()
    {
      if Unexpected? then Unexpected(message) else Thrown(error)
    }

    function Extract(): T
      requires Value?
    {
      value
    }
  }

  function Rethrow<T>(r: Result<T, YamlError>): (a: Attempt<T>)
    ensures a.Value? <==> r.Success?
    ensures a.Value? ==> a.value == r.value
    ensures a.Thrown? ==> a.error == r.error
  {
    match r
    case Success(v) => Value(v)
    case Failure(e) => Thrown(e)
  }
}
