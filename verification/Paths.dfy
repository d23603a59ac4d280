/** Locations inside a JSON document. */
module Paths {

  datatype Segment = Field(name: string) | Index(index: nat)

  type Path = seq<Segment>
}
