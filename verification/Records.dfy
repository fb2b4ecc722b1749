/** One share link as the parsers deliver it (internal/parse/types.go). */
module Records {
  datatype Record = Record(
    protocol: string, host: string, port: int, credential: string, params: map<string, string>, fragment: string, line: string)
}
