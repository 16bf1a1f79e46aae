/** The mutable header list of a response, in which one name may occur several times. */
module HeaderFields {
  import opened Options

  /** Header names without regard to case; `Named` stands for the ones no filter looks at. */
  datatype Name = CacheControl | ContentEncoding | ContentLength | ContentType | ETag | Vary | Named(text: string)

  datatype Field = Field(name: Name, value: string)

  /** Every value sent under a name, in order. */
  function Values(fields: seq<Field>, name: Name): seq<string> {
    if fields == [] then []
    else (if fields[0].name == name then [fields[0].value] else []) + Values(fields[1..], name)
  }

  predicate Has(fields: seq<Field>, name: Name) {
    Values(fields, name) != []
  }

  /** The first value, as a lookup returns it. */
  function Get(fields: seq<Field>, name: Name): Option<string> {
    if Has(fields, name) then Some(Values(fields, name)[0]) else None
  }

  function Drop(fields: seq<Field>, name: Name): seq<Field> {
    if fields == [] then []
    else (if fields[0].name == name then [] else [fields[0]]) + Drop(fields[1..], name)
  }

  /** Item assignment: replaces the first occurrence in place and removes the others, or appends. */
  function Set(fields: seq<Field>, name: Name, value: string): seq<Field> {
    if fields == [] then [Field(name, value)]
    else if fields[0].name == name then [Field(name, value)] + Drop(fields[1..], name)
    else [fields[0]] + Set(fields[1..], name, value)
  }

  function AddVary(fields: seq<Field>, value: string): seq<Field> {
    match Get(fields, Vary)
    case Some(existing) => Set(fields, Vary, existing + ", " + value)
    case None => Set(fields, Vary, value)
  }

  lemma {:induction false} ValuesOfDrop(fields: seq<Field>, name: Name, asked: Name)
    ensures Values(Drop(fields, name), asked) == if asked == name then [] else Values(fields, asked)
  {
    if fields != [] {
      ValuesOfDrop(fields[1..], name, asked);
      if fields[0].name != name {
        assert Drop(fields, name)[1..] == Drop(fields[1..], name);
      } else {
        assert Drop(fields, name) == Drop(fields[1..], name);
      }
    }
  }

  /** After an assignment the name has exactly that value and every other name keeps all of its values. */
  lemma {:induction false} ValuesOfSet(fields: seq<Field>, name: Name, value: string, asked: Name)
    ensures Values(Set(fields, name, value), asked) == if asked == name then [value] else Values(fields, asked)
  {
    var after := Set(fields, name, value);
    if fields == [] {
      assert after[1..] == [];
    } else if fields[0].name == name {
      ValuesOfDrop(fields[1..], name, asked);
      assert after[1..] == Drop(fields[1..], name);
    } else {
      ValuesOfSet(fields[1..], name, value, asked);
      assert after[1..] == Set(fields[1..], name, value);
    }
  }
}
