/** The route records of the configuration file (its YAML parsing is not modelled). */
module Config {
  import opened Wrappers

  /** One route entry: an API path, its HTTP method, controller file paths and optional extra text. */
  datatype Route = Route(path: string, httpMethod: string, controllers: seq<string>, otherDetails: Option<string>)
}
