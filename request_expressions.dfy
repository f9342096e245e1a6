/**
 The request-expression builders: each metric or dimension expression name
 the caller gives is sent to the backend under the `ga:` namespace, and each
 metric carries its bare name as alias. Only the strings are modelled; the
 client-library objects that carry them are not.
 */
module RequestExpressions {

  datatype Option<T> = None | Some(value: T)

  /** The backend's namespace prefix. */
  const Namespace: string := "ga:"

  /** An argument that PHP accepts either as a scalar or as an array. */
  datatype Expressions = One(e: string) | Many(es: seq<string>)

  /** The expression names an argument stands for, in order. */
  function Names(x: Expressions): seq<string> {
    match x
    case One(e) => [e]
    case Many(es) => es
  }

  /** A metric of a report request: the sent expression and its alias. */
  datatype Metric = Metric(expression: string, alias: string)

  /** A dimension of a report request: the sent name. */
  datatype Dimension = Dimension(name: string)

  /** `createMetric`: the expression is the name in the namespace, the alias the bare name. */
  function CreateMetric(e: string): Metric {
    Metric(Namespace + e, e)
  }

  /** `createDimension`: the name is the expression name in the namespace. */
  function CreateDimension(e: string): Dimension {
    Dimension(Namespace + e)
  }

  /** The foreach loop of `getMetrics` over an array: one metric per name, in order. */
  function CreateMetrics(es: seq<string>): (ms: seq<Metric>)
    ensures |ms| == |es|
    ensures forall k :: 0 <= k < |es| ==> ms[k] == CreateMetric(es[k])
  {
    if es == [] then [] else [CreateMetric(es[0])] + CreateMetrics(es[1..])
  }

  /** The foreach loop of `getDimensions` over an array: one dimension per name, in order. */
  function CreateDimensions(es: seq<string>): (ds: seq<Dimension>)
    ensures |ds| == |es|
    ensures forall k :: 0 <= k < |es| ==> ds[k] == CreateDimension(es[k])
  {
    if es == [] then [] else [CreateDimension(es[0])] + CreateDimensions(es[1..])
  }

  /** `getMetrics`: a scalar gives a one-entry list, an array one entry per name
      in order; every entry sends `ga:` + name under the alias name. */
  function GetMetrics(x: Expressions): (ms: seq<Metric>)
    ensures |ms| == |Names(x)|
    ensures forall k :: 0 <= k < |ms| ==>
              ms[k].expression == Namespace + Names(x)[k] && ms[k].alias == Names(x)[k]
  {
    match x
    case One(e) => [CreateMetric(e)]
    case Many(es) => CreateMetrics(es)
  }

  /** `getDimensions`: like `getMetrics`, except that an empty array leaves the
      local list unassigned, so PHP returns null. */
  function GetDimensions(x: Expressions): (r: Option<seq<Dimension>>)
    ensures r.None? <==> x == Many([])
    ensures r.Some? ==> |r.value| == |Names(x)|
    ensures r.Some? ==> forall k :: 0 <= k < |r.value| ==> r.value[k].name == Namespace + Names(x)[k]
  {
    match x
    case One(e) => Some([CreateDimension(e)])
    case Many(es) => if es == [] then None else Some(CreateDimensions(es))
  }

  /** The names a list of dimensions sends, in order. */
  function DimensionNamesSent(ds: seq<Dimension>): seq<string> {
    seq(|ds|, k requires 0 <= k < |ds| => ds[k].name)
  }
}
