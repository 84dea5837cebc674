/** The filter inside `stream_wordlist`: which lines of the wordlist file become
    entries. Reading the file is left to the caller; the model receives its lines. */
module Wordlist {
  import opened Results
  import opened Text

  datatype WordlistError = EmptyWordlist  // "Wordlist is empty or contains no valid entries"

  /** A line yields an entry when, once trimmed, it is non-empty and not a `#` comment. */
  predicate IsEntry(line: string)
    ensures AllWhitespace(line) ==> !IsEntry(line)
    ensures line != [] && line[0] == '#' ==> !IsEntry(line)
  {
    TrimAllWhitespace(line);
    TrimKeepsFirst(line);
    var t := Trim(line);
    t != [] && !StartsWith(t, "#")
  }

  /** The entries the lines yield, trimmed, in the order of the lines. */
  function KeptEntries(lines: seq<string>): (r: seq<string>)
    ensures |r| <= |lines|
    ensures forall i :: 0 <= i < |r| ==> r[i] != [] && !StartsWith(r[i], "#")
  {
    if lines == [] then []
    else
      var last := lines[|lines| - 1];
      KeptEntries(lines[..|lines| - 1]) + (if IsEntry(last) then [Trim(last)] else [])
  }

  /** Filtering distributes over concatenation: entries keep the order of their lines. */
  lemma {:induction false} KeptEntriesAppend(a: seq<string>, b: seq<string>)
    ensures KeptEntries(a + b) == KeptEntries(a) + KeptEntries(b)
  {
    if b == [] {
      assert a + b == a;
    } else {
      var n := |b| - 1;
      var tail := if IsEntry(b[n]) then [Trim(b[n])] else [];
      KeptEntriesAppend(a, b[..n]);
      assert (a + b)[..|a + b| - 1] == a + b[..n];
      assert KeptEntries(a + b) == KeptEntries(a + b[..n]) + tail;
      assert KeptEntries(b) == KeptEntries(b[..n]) + tail;
    }
  }

  /** Every entry is a trimmed, non-empty, non-comment line of the input. */
  lemma {:induction false} KeptEntriesSound(lines: seq<string>)
    ensures forall x :: x in KeptEntries(lines) ==>
      && x != [] && !StartsWith(x, "#") && Trim(x) == x
      && exists i :: 0 <= i < |lines| && IsEntry(lines[i]) && Trim(lines[i]) == x
  {
    if lines != [] {
      var n := |lines| - 1;
      var init := lines[..n];
      KeptEntriesSound(init);
      forall x | x in KeptEntries(lines)
        ensures x != [] && !StartsWith(x, "#") && Trim(x) == x
        ensures exists i :: 0 <= i < |lines| && IsEntry(lines[i]) && Trim(lines[i]) == x
      {
        if x in KeptEntries(init) {
          var i :| 0 <= i < |init| && IsEntry(init[i]) && Trim(init[i]) == x;
          assert lines[i] == init[i];
        } else {
          assert IsEntry(lines[n]) && x == Trim(lines[n]);
          TrimIdempotent(lines[n]);
        }
      }
    }
  }

  /** Every qualifying line is kept. */
  lemma {:induction false} KeptEntriesComplete(lines: seq<string>)
    ensures forall i :: 0 <= i < |lines| && IsEntry(lines[i]) ==> Trim(lines[i]) in KeptEntries(lines)
  {
    if lines != [] {
      var n := |lines| - 1;
      var init := lines[..n];
      KeptEntriesComplete(init);
      forall i | 0 <= i < |lines| && IsEntry(lines[i])
        ensures Trim(lines[i]) in KeptEntries(lines)
      {
        if i < n {
          assert init[i] == lines[i];
        }
      }
    }
  }

  /** No entries at all exactly when no line qualifies. */
  lemma {:induction false} KeptEntriesEmpty(lines: seq<string>)
    ensures KeptEntries(lines) == [] <==> forall i :: 0 <= i < |lines| ==> !IsEntry(lines[i])
  {
    KeptEntriesComplete(lines);
    KeptEntriesSound(lines);
    if KeptEntries(lines) != [] {
      assert KeptEntries(lines)[0] in KeptEntries(lines);
    }
  }

  /** `stream_wordlist` after the file is open: walk the lines, keep the trimmed
      entries, and fail if none remain. */
  method ReadWordlist(lines: seq<string>) returns (r: Result<seq<string>, WordlistError>)
    ensures KeptEntries(lines) == [] ==> r == Failure(EmptyWordlist)
    ensures KeptEntries(lines) != [] ==> r == Success(KeptEntries(lines))
  {
    var wordlist: seq<string> := [];
    for i := 0 to |lines|
      invariant wordlist == KeptEntries(lines[..i])
    {
      var trimmed := Trim(lines[i]);
      if trimmed != [] && !StartsWith(trimmed, "#") {
        wordlist := wordlist + [trimmed];
      }
      assert lines[..i + 1][..i] == lines[..i];
    }
    assert lines[..|lines|] == lines;
    if wordlist == [] {
      return Failure(EmptyWordlist);
    }
    r := Success(wordlist);
  }
}
