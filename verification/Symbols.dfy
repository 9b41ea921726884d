/** A declaration as the parser reports it (`internal/parser/symbols.go`). */
module Symbols {
  datatype Symbol = Symbol(kind: string, name: string, startRow: int, endRow: int, receiver: string)
}
