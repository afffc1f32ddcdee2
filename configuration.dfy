/** The compacted-log verifier's Configuration.java: `k=v` producer and
  * consumer properties, and the run mode. */
module VerifierConfiguration {
  import opened Common

  // ---------------------------------------------------------------------------
  // Java's String.split on a one-character separator.

  /** `r` without its trailing empty strings. */
  function DropTrailingEmpty(r: seq<string>): (t: seq<string>)
    ensures t <= r
    ensures t == [] || t[|t| - 1] != ""
    ensures forall i :: |t| <= i < |r| ==> r[i] == ""
  {
    if r == [] || r[|r| - 1] != "" then r
    else DropTrailingEmpty(r[..|r| - 1])
  }

  /** `s.split(c)`: a string without the separator splits into itself;
    * otherwise the fields between separators, with trailing empty fields
    * dropped (so "a=" gives ["a"] and "=" gives no field at all). */
  function JavaSplit(s: string, c: char): (r: seq<string>)
  {
    if NoChar(s, c) then [s] else DropTrailingEmpty(Split(s, c))
  }

  /** No field of a split holds the separator. */
  lemma {:induction false} SplitFieldsNoChar(s: string, c: char)
    ensures forall i :: 0 <= i < |Split(s, c)| ==> NoChar(Split(s, c)[i], c)
    decreases |s|
  {
    if s != [] {
      SplitFieldsNoChar(s[1..], c);
      var rest := Split(s[1..], c);
      if s[0] != c {
        var head := [s[0]] + rest[0];
        assert NoChar(head, c) by {
          forall k | 0 <= k < |head| ensures head[k] != c {
            if k > 0 { assert head[k] == rest[0][k - 1]; }
          }
        }
        assert Split(s, c) == [head] + rest[1..];
        forall i | 1 <= i < |Split(s, c)| ensures NoChar(Split(s, c)[i], c) {
          assert Split(s, c)[i] == rest[i];
        }
      }
    }
  }

  // ---------------------------------------------------------------------------
  // parseProperties.

  /** The message of the IllegalArgumentException an invalid entry raises. */
  function InvalidProperty(entry: string): string
  {
    "Invalid property: " + entry
  }

  /** One entry: exactly two pieces around '=' give a key and a value. */
  function ParseEntry(entry: string): (r: Result<(string, string), string>)
    ensures r.Err? ==> r.error == InvalidProperty(entry)
  {
    var pieces := JavaSplit(entry, '=');
    if |pieces| != 2 then Err(InvalidProperty(entry)) else Ok((pieces[0], pieces[1]))
  }

  /** Each entry parsed on its own. */
  function Parsed(entries: seq<string>): (rs: seq<Result<(string, string), string>>)
    ensures |rs| == |entries|
  {
    seq(|entries|, i requires 0 <= i < |entries| => ParseEntry(entries[i]))
  }

  /** The properties parsed entries give: the pairs are put in order, so a
    * later pair for a key overwrites an earlier one; the first failure
    * aborts with its error. */
  function Collect(rs: seq<Result<(string, string), string>>): Result<map<string, string>, string>
  {
    if rs == [] then Ok(map[])
    else
      var n := |rs| - 1;
      match Collect(rs[..n])
      case Err(e) => Err(e)
      case Ok(props) =>
        match rs[n]
        case Err(e) => Err(e)
        case Ok((k, v)) => Ok(props[k := v])
  }

  /** The properties a list of entries gives. */
  function PropertiesOf(entries: seq<string>): Result<map<string, string>, string>
  {
    Collect(Parsed(entries))
  }

  /** parseProperties: the loop over the entries. */
  method ParseProperties(entries: seq<string>) returns (r: Result<map<string, string>, string>)
    ensures r == PropertiesOf(entries)
  {
    ghost var rs := Parsed(entries);
    var props: map<string, string> := map[];
    var i := 0;
    while i < |entries|
      invariant 0 <= i <= |entries|
      invariant Collect(rs[..i]) == Ok(props)
    {
      assert rs[..i + 1][..i] == rs[..i];
      var pieces := JavaSplit(entries[i], '=');
      if |pieces| != 2 {
        assert Collect(rs[..i + 1]).Err?;
        PrefixErrorSticks(rs, i + 1);
        return Err(InvalidProperty(entries[i]));
      }
      props := props[pieces[0] := pieces[1]];
      i := i + 1;
    }
    assert rs[..i] == rs;
    r := Ok(props);
  }

  /** Once a prefix of the parsed entries fails, the whole list fails the
    * same way. */
  lemma {:induction false} PrefixErrorSticks(rs: seq<Result<(string, string), string>>, i: nat)
    requires i <= |rs| && Collect(rs[..i]).Err?
    ensures Collect(rs) == Collect(rs[..i])
    decreases |rs| - i
  {
    if i < |rs| {
      assert rs[..i + 1][..i] == rs[..i];
      PrefixErrorSticks(rs, i + 1);
    } else {
      assert rs[..i] == rs;
    }
  }

  /** Collecting fails exactly when some entry failed, and then with the
    * error of the first failure. */
  lemma {:induction false} CollectFirstError(rs: seq<Result<(string, string), string>>)
    ensures Collect(rs).Err? <==> exists i :: 0 <= i < |rs| && rs[i].Err?
    ensures Collect(rs).Err? ==>
      exists i :: (0 <= i < |rs| && rs[i].Err? && Collect(rs).error == rs[i].error &&
        forall j :: 0 <= j < i ==> rs[j].Ok?)
  {
    if rs != [] {
      var n := |rs| - 1;
      var front := rs[..n];
      CollectFirstError(front);
      assert forall i :: 0 <= i < n ==> front[i] == rs[i];
      if Collect(front).Err? {
        var i :| 0 <= i < n && front[i].Err? && Collect(front).error == front[i].error &&
          forall j :: 0 <= j < i ==> front[j].Ok?;
        assert rs[i].Err? && Collect(rs).error == rs[i].error;
      } else if rs[n].Err? {
        assert Collect(rs).error == rs[n].error;
      }
    }
  }

  /** The pairs put in order into an empty map. */
  function PutAll(ps: seq<(string, string)>): map<string, string>
  {
    if ps == [] then map[] else PutAll(ps[..|ps| - 1])[ps[|ps| - 1].0 := ps[|ps| - 1].1]
  }

  /** Putting pairs in order leaves each key with the value of its last
    * pair. */
  lemma {:induction false} PutAllLastValue(ps: seq<(string, string)>)
    ensures forall i :: 0 <= i < |ps| ==> ps[i].0 in PutAll(ps)
    ensures forall i :: 0 <= i < |ps| && (forall j :: i < j < |ps| ==> ps[j].0 != ps[i].0) ==>
      PutAll(ps)[ps[i].0] == ps[i].1
  {
    if ps != [] {
      var n := |ps| - 1;
      PutAllLastValue(ps[..n]);
      assert forall i :: 0 <= i < n ==> ps[..n][i] == ps[i];
    }
  }

  /** The pairs of results that all parsed. */
  function Values(rs: seq<Result<(string, string), string>>): (ps: seq<(string, string)>)
    requires forall i :: 0 <= i < |rs| ==> rs[i].Ok?
    ensures |ps| == |rs|
  {
    seq(|rs|, i requires 0 <= i < |rs| => rs[i].value)
  }

  /** Collecting succeeds with the pairs put in order. */
  lemma {:induction false} CollectPutAll(rs: seq<Result<(string, string), string>>)
    requires Collect(rs).Ok?
    ensures forall i :: 0 <= i < |rs| ==> rs[i].Ok?
    ensures Collect(rs).value == PutAll(Values(rs))
  {
    if rs != [] {
      var n := |rs| - 1;
      var front := rs[..n];
      CollectPutAll(front);
      assert forall i :: 0 <= i < n ==> front[i] == rs[i];
      assert Values(rs)[..n] == Values(front);
    }
  }

  /** A list of entries fails exactly when some entry is invalid, and then
    * with the error of the first invalid entry. */
  lemma PropertiesFirstError(entries: seq<string>)
    ensures PropertiesOf(entries).Err? <==> exists i :: 0 <= i < |entries| && ParseEntry(entries[i]).Err?
    ensures PropertiesOf(entries).Err? ==>
      exists i :: (0 <= i < |entries| && ParseEntry(entries[i]).Err? &&
        PropertiesOf(entries).error == InvalidProperty(entries[i]) &&
        forall j :: 0 <= j < i ==> ParseEntry(entries[j]).Ok?)
  {
    var rs := Parsed(entries);
    CollectFirstError(rs);
    assert forall i :: 0 <= i < |entries| ==> rs[i] == ParseEntry(entries[i]);
  }

  /** A list of valid entries gives its pairs put in order, so (by
    * `PutAllLastValue`) each key holds the value of its last entry. */
  lemma PropertiesArePairs(entries: seq<string>)
    requires PropertiesOf(entries).Ok?
    ensures forall i :: 0 <= i < |entries| ==> ParseEntry(entries[i]).Ok?
    ensures forall i :: 0 <= i < |entries| ==> Parsed(entries)[i].Ok?
    ensures PropertiesOf(entries).value == PutAll(Values(Parsed(entries)))
  {
    CollectPutAll(Parsed(entries));
    forall i | 0 <= i < |entries| ensures ParseEntry(entries[i]).Ok? {
      assert Parsed(entries)[i] == ParseEntry(entries[i]);
    }
  }

  /** A key without '=' and a non-empty value without '=' make a valid
    * entry that yields exactly that key and value. */
  lemma EntryRoundTrip(k: string, v: string)
    requires NoChar(k, '=') && NoChar(v, '=') && v != ""
    ensures ParseEntry(k + "=" + v) == Ok((k, v))
  {
    SplitCons(k, '=', v);
    SplitNoChar(v, '=');
    assert (k + "=" + v)[|k|] == '=';
  }

  /** A valid entry's key and value hold no '=' and the value is never
    * empty. */
  lemma ParsedEntryShape(entry: string)
    requires ParseEntry(entry).Ok?
    ensures var (k, v) := ParseEntry(entry).value;
      NoChar(k, '=') && NoChar(v, '=') && v != ""
  {
    SplitFieldsNoChar(entry, '=');
    SplitCount(entry, '=');
  }

  /** "a=b=c" and "a" are invalid; because trailing empty fields are
    * dropped "a=" is invalid too, while "=b" gives the empty key. */
  lemma EntryExamples()
    ensures ParseEntry("a=b=c").Err?
    ensures ParseEntry("a").Err?
    ensures ParseEntry("a=").Err?
    ensures ParseEntry("=b") == Ok(("", "b"))
  {
    assert "a=b=c"[1] == '=';
    assert Split("a=b=c", '=') == ["a", "b", "c"] by {
      SplitCons("a", '=', "b=c");
      SplitCons("b", '=', "c");
      SplitNoChar("c", '=');
      assert "a=b=c" == "a" + "=" + "b=c";
      assert "b=c" == "b" + "=" + "c";
    }
    assert NoChar("a", '=');
    assert "a="[1] == '=';
    assert Split("a=", '=') == ["a", ""] by {
      SplitCons("a", '=', "");
      assert "a=" == "a" + "=" + "";
    }
    EntryRoundTrip("", "b");
    assert "" + "=" + "b" == "=b";
  }

  // ---------------------------------------------------------------------------
  // getMode.

  datatype Mode = Consumer | Producer

  /** getMode: the consumer mode exactly for "consume". */
  function GetMode(modeStr: string): (m: Mode)
    ensures m == Consumer <==> modeStr == "consume"
  {
    if modeStr == "consume" then Consumer else Producer
  }
}
