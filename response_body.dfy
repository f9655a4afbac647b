/**
 * The gateway's line-based reply format: `Key=Value` lines separated by
 * CRLF. Parsing is the loop in `register_tx`: split the body into lines,
 * split each line at its first `=`, and record the pair in a hash, a
 * later line with the same key overwriting an earlier one.
 */
module ResponseBody {
  import opened Optional
  import opened RubyString

  /**
   * The hash entry one line produces: `line.split("=", 2)` gives the key
   * `first` and the value `last`, so a line without `=` maps to itself.
   * The empty line gives no pieces and so the key nil; no property is ever
   * read under nil, so that entry is left out (None).
   */
  function Entry(line: string): (e: Option<(string, string)>)
    ensures e.None? <==> line == ""
    ensures e.Some? && '=' !in line ==> e.value == (line, line)
    ensures e.Some? && '=' in line ==> line == e.value.0 + "=" + e.value.1 && '=' !in e.value.0
  {
    var parts := SplitFirst(line, '=');
    if parts == [] then None else Some((parts[0], parts[|parts| - 1]))
  }

  /** line carries the key k. */
  predicate HasKey(line: string, k: string)
  {
    Entry(line).Some? && Entry(line).value.0 == k
  }

  /** The hash built from lines, in order: a later line overwrites an earlier one. */
  function Collect(lines: seq<string>): map<string, string>
  {
    if lines == [] then map[]
    else
      var hash := Collect(lines[..|lines| - 1]);
      match Entry(lines[|lines| - 1])
      case None => hash
      case Some((k, v)) => hash[k := v]
  }

  /**
   * The hash `register_tx` builds from a reply body: every key with its
   * value comes from a line of the body, and every non-empty line's key is
   * in it.
   */
  function Parsed(body: string): (h: map<string, string>)
    ensures forall k :: k in h ==>
      exists i :: 0 <= i < |SplitCrlf(body)| && Entry(SplitCrlf(body)[i]) == Some((k, h[k]))
    ensures forall i :: 0 <= i < |SplitCrlf(body)| && Entry(SplitCrlf(body)[i]).Some? ==>
      Entry(SplitCrlf(body)[i]).value.0 in h
  {
    var lines := SplitCrlf(body);
    var h := Collect(lines);
    assert forall k :: k in h ==> exists i :: 0 <= i < |lines| && Entry(lines[i]) == Some((k, h[k])) by {
      forall k | k in h ensures exists i :: 0 <= i < |lines| && Entry(lines[i]) == Some((k, h[k])) {
        CollectKeysFromLines(lines, k);
      }
    }
    assert forall i :: 0 <= i < |lines| && Entry(lines[i]).Some? ==> Entry(lines[i]).value.0 in h by {
      forall i | 0 <= i < |lines| && Entry(lines[i]).Some? ensures Entry(lines[i]).value.0 in h {
        CollectHasLineKeys(lines, i);
      }
    }
    h
  }

  /** The loop of `register_tx` that fills the hash, line by line. */
  method ParseResponse(body: string) returns (hash: map<string, string>)
    ensures hash == Parsed(body)
  {
    var lines := SplitCrlf(body);
    hash := map[];
    for i := 0 to |lines|
      invariant hash == Collect(lines[..i])
    {
      var parts := SplitFirst(lines[i], '=');
      if parts != [] {
        hash := hash[parts[0] := parts[|parts| - 1]];
      }
      assert lines[..i + 1][..i] == lines[..i];
    }
    assert lines[..|lines|] == lines;
    assert hash == Collect(lines);
  }

  /**
   * Every key of the hash comes from some line with its value, and no line
   * after that one carries the key.
   */
  lemma {:induction false} CollectKeysFromLines(lines: seq<string>, k: string)
    requires k in Collect(lines)
    ensures exists i :: 0 <= i < |lines| && Entry(lines[i]) == Some((k, Collect(lines)[k])) && LastToCarry(lines, i, k)
    decreases |lines|
  {
    var init := lines[..|lines| - 1];
    var last := |lines| - 1;
    if HasKey(lines[last], k) {
      CollectTakesLastLine(lines, k);
      assert LastToCarry(lines, last, k);
    } else {
      CollectSkipsLine(lines, k);
      CollectKeysFromLines(init, k);
      var i :| 0 <= i < |init| && Entry(init[i]) == Some((k, Collect(init)[k])) && LastToCarry(init, i, k);
      LastToCarryExtends(lines, i, k);
      assert lines[i] == init[i];
    }
  }

  /** A last line that carries k sets its value. */
  lemma CollectTakesLastLine(lines: seq<string>, k: string)
    requires lines != [] && HasKey(lines[|lines| - 1], k)
    ensures k in Collect(lines) && Entry(lines[|lines| - 1]) == Some((k, Collect(lines)[k]))
  {
  }

  /** Line i stays the last to carry k when a line without k follows. */
  lemma LastToCarryExtends(lines: seq<string>, i: int, k: string)
    requires 0 <= i < |lines| - 1 && LastToCarry(lines[..|lines| - 1], i, k)
    requires !HasKey(lines[|lines| - 1], k)
    ensures LastToCarry(lines, i, k)
  {
    var init := lines[..|lines| - 1];
    forall j | i < j < |lines| ensures !HasKey(lines[j], k) {
      if j < |init| {
        assert lines[j] == init[j];
      }
    }
  }

  /** A last line that does not carry k leaves k as the earlier lines set it. */
  lemma CollectSkipsLine(lines: seq<string>, k: string)
    requires lines != [] && !HasKey(lines[|lines| - 1], k)
    ensures k in Collect(lines) <==> k in Collect(lines[..|lines| - 1])
    ensures k in Collect(lines) ==> Collect(lines)[k] == Collect(lines[..|lines| - 1])[k]
  {
  }

  /** No line after line i carries the key k. */
  predicate LastToCarry(lines: seq<string>, i: int, k: string)
  {
    forall j :: 0 <= i < j < |lines| ==> !HasKey(lines[j], k)
  }

  /** Every line that gives an entry puts its key in the hash. */
  lemma {:induction false} CollectHasLineKeys(lines: seq<string>, i: int)
    requires 0 <= i < |lines| && Entry(lines[i]).Some?
    ensures Entry(lines[i]).value.0 in Collect(lines)
    decreases |lines|
  {
    var init := lines[..|lines| - 1];
    if i < |lines| - 1 {
      assert lines[i] == init[i];
      CollectHasLineKeys(init, i);
    }
  }

  /** The line that carries k last decides its value. */
  lemma {:induction false} CollectLastWins(lines: seq<string>, i: int, k: string, v: string)
    requires 0 <= i < |lines| && Entry(lines[i]) == Some((k, v))
    requires forall j :: i < j < |lines| ==> !HasKey(lines[j], k)
    ensures k in Collect(lines) && Collect(lines)[k] == v
    decreases |lines|
  {
    var init := lines[..|lines| - 1];
    if i < |lines| - 1 {
      forall j | i < j < |init| ensures !HasKey(init[j], k) {
        assert init[j] == lines[j];
      }
      CollectLastWins(init, i, k, v);
    }
  }

  // ---------------------------------------------------------------------
  // Writing a reply

  /** One `Key=Value` line. */
  function Line(e: (string, string)): string
  {
    e.0 + "=" + e.1
  }

  /** A body holding the given entries in order, one line each. */
  function Render(entries: seq<(string, string)>): string
  {
    if entries == [] then ""
    else JoinCrlf(seq(|entries|, i requires 0 <= i < |entries| => Line(entries[i])))
  }

  /** An entry that can be written on one line and read back as the same pair. */
  predicate Writable(e: (string, string))
  {
    '=' !in e.0 && !ContainsCrlf(e.0) && !ContainsCrlf(e.1)
  }

  /** A line of an entry that holds no CRLF holds none either: `=` cannot pair with CR or LF. */
  lemma LineHasNoCrlf(e: (string, string))
    requires !ContainsCrlf(e.0) && !ContainsCrlf(e.1)
    ensures !ContainsCrlf(Line(e))
  {
    var s := Line(e);
    var n := |e.0|;
    forall i | 0 <= i < |s| - 1 ensures !(s[i] == CR && s[i + 1] == LF) {
      if i + 1 < n {
        assert s[i] == e.0[i] && s[i + 1] == e.0[i + 1];
      } else if i + 1 == n {
        assert s[i + 1] == '=';
      } else if i == n {
        assert s[i] == '=';
      } else {
        assert s[i] == e.1[i - n - 1] && s[i + 1] == e.1[i - n];
      }
    }
  }

  /** The lines of a rendered body are exactly the rendered entries. */
  lemma SplitRender(entries: seq<(string, string)>)
    requires forall i :: 0 <= i < |entries| ==> Writable(entries[i])
    ensures SplitCrlf(Render(entries)) == seq(|entries|, i requires 0 <= i < |entries| => Line(entries[i]))
  {
    var ls := seq(|entries|, i requires 0 <= i < |entries| => Line(entries[i]));
    if entries != [] {
      forall i | 0 <= i < |ls| ensures !ContainsCrlf(ls[i]) {
        LineHasNoCrlf(entries[i]);
      }
      assert ls[|ls| - 1] != "" by {
        assert '=' in ls[|ls| - 1];
      }
      SplitJoin(ls);
    }
  }

  /** Lines whose entries are given, with distinct keys, collect to exactly those entries. */
  lemma CollectDistinct(lines: seq<string>, entries: seq<(string, string)>)
    requires |lines| == |entries|
    requires forall i :: 0 <= i < |lines| ==> Entry(lines[i]) == Some(entries[i])
    requires forall i, j :: 0 <= i < j < |entries| ==> entries[i].0 != entries[j].0
    ensures forall i :: 0 <= i < |entries| ==>
      entries[i].0 in Collect(lines) && Collect(lines)[entries[i].0] == entries[i].1
    ensures forall k :: k in Collect(lines) ==> exists i :: 0 <= i < |entries| && entries[i].0 == k
  {
    forall i | 0 <= i < |entries|
      ensures entries[i].0 in Collect(lines) && Collect(lines)[entries[i].0] == entries[i].1
    {
      forall j | i < j < |lines| ensures !HasKey(lines[j], entries[i].0) {
        assert Entry(lines[j]) == Some(entries[j]);
      }
      CollectLastWins(lines, i, entries[i].0, entries[i].1);
    }
    forall k | k in Collect(lines) ensures exists i :: 0 <= i < |entries| && entries[i].0 == k {
      CollectKeysFromLines(lines, k);
      var i :| 0 <= i < |lines| && HasKey(lines[i], k);
      assert Entry(lines[i]) == Some(entries[i]);
    }
  }

  /**
   * Round trip: parsing a rendered body with distinct keys gives every key
   * its value, whatever `=` the value holds, and no other key.
   */
  lemma ParseRender(entries: seq<(string, string)>)
    requires forall i :: 0 <= i < |entries| ==> Writable(entries[i])
    requires forall i, j :: 0 <= i < j < |entries| ==> entries[i].0 != entries[j].0
    ensures forall i :: 0 <= i < |entries| ==>
      entries[i].0 in Parsed(Render(entries)) && Parsed(Render(entries))[entries[i].0] == entries[i].1
    ensures forall k :: k in Parsed(Render(entries)) ==> exists i :: 0 <= i < |entries| && entries[i].0 == k
  {
    var ls := seq(|entries|, i requires 0 <= i < |entries| => Line(entries[i]));
    SplitRender(entries);
    assert Parsed(Render(entries)) == Collect(ls);
    forall i | 0 <= i < |entries| ensures Entry(ls[i]) == Some(entries[i]) {
      SplitFirstAtKey(entries[i].0, '=', entries[i].1);
    }
    CollectDistinct(ls, entries);
  }

  /** A value holding `=` (a query string, say) is kept whole after its key. */
  lemma ValueKeptWhole(key: string, value: string)
    requires '=' !in key
    ensures Entry(key + "=" + value) == Some((key, value))
  {
    SplitFirstAtKey(key, '=', value);
  }
}
