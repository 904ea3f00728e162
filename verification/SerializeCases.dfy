/** The three ways in and out of a faithful round trip, on the smallest graphs that show them. */
module SerializeCases {
  import opened PhpValues
  import opened SerializeSpec
  import opened UnserializeSpec
  import opened SerializeRoundTrip
  import opened SerializeTheorems

  /** An array that holds itself comes back as something else: the inner view keeps the keys read so far. */
  lemma ArrayInItself(src: Source)
    requires Good(src) && src.env.heap == map[1 := ArrayNode(map["0" := Array(1, ["0"])])] && KeysOf(src, 1) == ["0"]
    ensures !ReadsBackAsCopy(src, Array(1, ["0"]))
  {
    hide Unserialize, Serialize, ReadsBackAsCopy, Ser;
    var v := Array(1, ["0"]);
    assert Register([], 1) == [1] && {} + {1} == {1};
    assert !Clean(src.env, v, [1], {1}, 1);
    RoundTripExactly(src, v);
  }

  /** An object that holds itself comes back as a copy that holds itself. */
  lemma ObjectInItself(src: Source)
    requires Good(src) && src.env.heap == map[1 := ObjectNode("A", map["me" := Object(1)], ["me"])]
    ensures ReadsBackAsCopy(src, Object(1))
  {
    hide Unserialize, Serialize, ReadsBackAsCopy, Ser;
    assert Register([], 1) == [1] && {} + {1} == {1};
    assert Clean(src.env, Object(1), [1], {1}, 1);
    assert ["me"][1..] == [];
    RoundTripExactly(src, Object(1));
  }

  /** The array key "-0" prints as the integer 0 and is not read back. */
  lemma MinusZeroKey(src: Source)
    requires Good(src) && src.env.heap == map[1 := ArrayNode(map["-0" := Null])] && KeysOf(src, 1) == ["-0"]
    ensures !ReadsBackAsCopy(src, Array(1, ["-0"]))
  {
    hide Unserialize, Serialize, ReadsBackAsCopy, Ser;
    RoundTripExactly(src, Array(1, ["-0"]));
  }

}
