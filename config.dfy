/** Loading a JSON configuration file and checking its required fields. */
module Config {
  import opened Wrappers
  import opened Seqs
  import opened Dicts
  import opened JsonValues

  /** What opening and parsing the file gave: no file, text that is not JSON, or a JSON object. */
  datatype ConfigFile = NotFound | InvalidJson | Parsed(config: Dict<string, Json>)

  /** `[field for field in required if field not in config]`. */
  function MissingFields(config: Dict<string, Json>, required: seq<string>): seq<string> {
    Filter(f => f !in Keys(config), required)
  }

  /** The missing fields are exactly the required names the configuration lacks; none
      missing means every required name has a value. */
  lemma {:induction false} MissingFieldsExact(config: Dict<string, Json>, required: seq<string>)
    ensures forall f :: f in MissingFields(config, required) <==> f in required && f !in Keys(config)
    ensures MissingFields(config, required) == [] <==> forall f :: f in required ==> f in Keys(config)
  {
    var m := MissingFields(config, required);
    FilterMembers(f => f !in Keys(config), required);
    if m != [] {
      assert m[0] in m;
    }
  }
}
