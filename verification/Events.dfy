/**
 * Events on the bus: JSON payloads, how a consumer reads their fields, and how it recovers the type
 * of an event whose header is missing.
 */
module Events {
  import opened Basics

  datatype Json = Text(text: string) | Number(value: real) | Truth(truth: bool) | Composite

  /** A payload that does not decode to an object is a poison payload. */
  datatype Payload = Poison | Object(fields: map<string, Json>)

  datatype Message = Message(topic: string, key: string, payload: Payload, eventId: string, eventType: string)

  /** The first of the keys whose value is a non-empty string. */
  function StringField(fields: map<string, Json>, keys: seq<string>): string {
    if keys == [] then ""
    else if keys[0] in fields && fields[keys[0]].Text? && fields[keys[0]].text != "" then fields[keys[0]].text
    else StringField(fields, keys[1..])
  }

  /** The first of the keys whose value is a number. */
  function CentsField(fields: map<string, Json>, keys: seq<string>): int {
    if keys == [] then 0
    else if keys[0] in fields && fields[keys[0]].Number? then Truncated(fields[keys[0]].value)
    else CentsField(fields, keys[1..])
  }

  function BoolField(fields: map<string, Json>, key: string): bool {
    if key !in fields then false
    else match fields[key]
      case Truth(b) => b
      case Text(t) => t == "true" || t == "1"
      case Number(v) => v != 0.0
      case Composite => false
  }

  // ---------------------------------------------------------------------------------------------
  // What the readers read
  // ---------------------------------------------------------------------------------------------

  predicate HasText(fields: map<string, Json>, key: string) {
    key in fields && fields[key].Text? && fields[key].text != ""
  }

  /** A non-empty answer is the text of the first key that has one; an empty answer means that none has. */
  lemma {:induction false} FirstText(fields: map<string, Json>, keys: seq<string>)
    ensures var t := StringField(fields, keys);
      if t == "" then forall k :: 0 <= k < |keys| ==> !HasText(fields, keys[k])
      else exists k :: (0 <= k < |keys| && HasText(fields, keys[k]) && fields[keys[k]].text == t
                        && forall j :: 0 <= j < k ==> !HasText(fields, keys[j]))
  {
    if keys != [] && !HasText(fields, keys[0]) {
      var rest := keys[1..];
      FirstText(fields, rest);
      if StringField(fields, rest) == "" {
        forall k | 0 <= k < |keys| ensures !HasText(fields, keys[k]) { assert k > 0 ==> keys[k] == rest[k - 1]; }
      } else {
        var k :| 0 <= k < |rest| && HasText(fields, rest[k]) && fields[rest[k]].text == StringField(fields, rest)
          && forall j :: 0 <= j < k ==> !HasText(fields, rest[j]);
        assert keys[k + 1] == rest[k];
        forall j | 0 <= j < k + 1 ensures !HasText(fields, keys[j]) { assert j > 0 ==> keys[j] == rest[j - 1]; }
      }
    }
  }

  /** Of two keys, or of one. */
  lemma FewKeys(fields: map<string, Json>, a: string, b: string)
    ensures StringField(fields, [a]) == if HasText(fields, a) then fields[a].text else ""
    ensures StringField(fields, [a, b]) ==
      if HasText(fields, a) then fields[a].text else if HasText(fields, b) then fields[b].text else ""
    ensures CentsField(fields, [a, b]) ==
      if HasNumber(fields, a) then Truncated(fields[a].value)
      else if HasNumber(fields, b) then Truncated(fields[b].value) else 0
  {
    assert [a][1..] == [] && [b][1..] == [] && [a, b][1..] == [b];
    assert StringField(fields, [b]) == if HasText(fields, b) then fields[b].text else "";
    assert CentsField(fields, [b]) == if HasNumber(fields, b) then Truncated(fields[b].value) else 0;
  }

  predicate HasNumber(fields: map<string, Json>, key: string) { key in fields && fields[key].Number? }

  /** Key number k is the first with a number, and n is that number without its fraction. */
  predicate Reads(fields: map<string, Json>, keys: seq<string>, k: nat, n: int) {
    && k < |keys| && HasNumber(fields, keys[k]) && WholePart(fields[keys[k]].value, n)
    && forall j :: 0 <= j < k ==> !HasNumber(fields, keys[j])
  }

  /** An amount is the number of the first key that has one, without its fraction; zero if none has. */
  lemma {:induction false} FirstNumber(fields: map<string, Json>, keys: seq<string>)
    ensures if forall k :: 0 <= k < |keys| ==> !HasNumber(fields, keys[k]) then CentsField(fields, keys) == 0
      else exists k: nat :: Reads(fields, keys, k, CentsField(fields, keys))
  {
    if keys != [] {
      var rest := keys[1..];
      if HasNumber(fields, keys[0]) {
        assert Reads(fields, keys, 0, CentsField(fields, keys));
      } else {
        FirstNumber(fields, rest);
        assert forall j :: 0 <= j < |rest| ==> keys[j + 1] == rest[j];
        assert forall j :: 0 < j < |keys| ==> keys[j] == rest[j - 1];
        if k: nat :| Reads(fields, rest, k, CentsField(fields, rest)) {
          assert Reads(fields, keys, k + 1, CentsField(fields, keys));
        }
      }
    }
  }

  /** n is x without its fraction. */
  predicate WholePart(x: real, n: int) {
    if x >= 0.0 then n as real <= x < n as real + 1.0 else n as real - 1.0 < x <= n as real
  }

  /** A field is true as a truth value, as "true" or "1", or as a number that is not zero. */
  lemma TruthyFields(fields: map<string, Json>, key: string)
    ensures BoolField(fields, key) <==>
      && key in fields
      && (fields[key] in {Truth(true), Text("true"), Text("1")} || (fields[key].Number? && fields[key].value != 0.0))
  {
  }
}
