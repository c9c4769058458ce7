/** capLogs of sandbox/serialize.ts: captured console output, held under two caps. */
module ConsoleLogs {
  import opened Utf8

  function TotalBytes(logs: seq<Utf16>): nat {
    if logs == [] then 0 else |Encode(logs[0])| + TotalBytes(logs[1..])
  }

  /** The retained entries: whole ones while they fit, then one cut entry if any of the cap is left. */
  function Capped(logs: seq<Utf16>, maxEntries: nat, left: nat): seq<Utf16> {
    if logs == [] || maxEntries == 0 then []
    else if |Encode(logs[0])| > left then (if left > 0 then [HostTruncated(logs[0], left)] else [])
    else [logs[0]] + Capped(logs[1..], maxEntries - 1, left - |Encode(logs[0])|)
  }

  /** Everything survives exactly when both caps already hold. */
  predicate WithinCaps(logs: seq<Utf16>, maxEntries: nat, maxBytes: nat) {
    |logs| <= maxEntries && TotalBytes(logs) <= maxBytes
  }

  lemma {:induction false} CappedHoldsCaps(logs: seq<Utf16>, maxEntries: nat, left: nat)
    ensures WithinCaps(Capped(logs, maxEntries, left), maxEntries, left)
    ensures WithinCaps(logs, maxEntries, left) ==> Capped(logs, maxEntries, left) == logs
  {
    if logs != [] && maxEntries > 0 {
      if |Encode(logs[0])| > left {
        HostTruncatedFits(logs[0], left);
      } else {
        CappedHoldsCaps(logs[1..], maxEntries - 1, left - |Encode(logs[0])|);
        assert ([logs[0]] + Capped(logs[1..], maxEntries - 1, left - |Encode(logs[0])|))[1..] ==
               Capped(logs[1..], maxEntries - 1, left - |Encode(logs[0])|);
      }
    }
  }

  lemma TotalBytesOf(first: Utf16, rest: seq<Utf16>)
    ensures TotalBytes([first] + rest) == |Encode(first)| + TotalBytes(rest)
  {
    assert ([first] + rest)[1..] == rest;
  }

  /** The first n entries are the longest start that both caps admit. */
  predicate LongestStart(logs: seq<Utf16>, maxEntries: nat, left: nat, n: nat) {
    && n <= |logs| && n <= maxEntries && TotalBytes(logs[..n]) <= left
    && (n == |logs| || n == maxEntries || TotalBytes(logs[..n + 1]) > left)
  }

  /** What is added when an entry and bytes are left: that entry, cut to the longest text that fits. */
  function Remainder(logs: seq<Utf16>, maxEntries: nat, left: nat, n: nat): seq<Utf16>
    requires n <= |logs|
  {
    if n < |logs| && n < maxEntries && TotalBytes(logs[..n]) < left
    then [HostTruncated(logs[n], left - TotalBytes(logs[..n]))] else []
  }

  /** The retained entries are that start and what is added to it. */
  predicate Retained(logs: seq<Utf16>, maxEntries: nat, left: nat, n: nat) {
    LongestStart(logs, maxEntries, left, n) && Capped(logs, maxEntries, left) == logs[..n] + Remainder(logs, maxEntries, left, n)
  }

  lemma StartGrows(first: Utf16, rest: seq<Utf16>, maxEntries: nat, left: nat, n: nat)
    requires maxEntries > 0 && |Encode(first)| <= left && LongestStart(rest, maxEntries - 1, left - |Encode(first)|, n)
    ensures LongestStart([first] + rest, maxEntries, left, n + 1)
    ensures Remainder([first] + rest, maxEntries, left, n + 1) == Remainder(rest, maxEntries - 1, left - |Encode(first)|, n)
  {
    assert ([first] + rest)[..n + 1] == [first] + rest[..n];
    TotalBytesOf(first, rest[..n]);
    if n < |rest| {
      assert ([first] + rest)[..n + 2] == [first] + rest[..n + 1];
      TotalBytesOf(first, rest[..n + 1]);
    }
  }

  lemma CappedGrows(first: Utf16, rest: seq<Utf16>, maxEntries: nat, left: nat)
    requires maxEntries > 0 && |Encode(first)| <= left
    ensures Capped([first] + rest, maxEntries, left) == [first] + Capped(rest, maxEntries - 1, left - |Encode(first)|)
  {
    assert ([first] + rest)[1..] == rest;
  }

  lemma Reassociate(first: Utf16, rest: seq<Utf16>, n: nat, more: seq<Utf16>)
    requires n <= |rest|
    ensures [first] + (rest[..n] + more) == ([first] + rest)[..n + 1] + more
  {
  }

  lemma RetainedGrows(first: Utf16, rest: seq<Utf16>, maxEntries: nat, left: nat, n: nat)
    requires maxEntries > 0 && |Encode(first)| <= left && Retained(rest, maxEntries - 1, left - |Encode(first)|, n)
    ensures Retained([first] + rest, maxEntries, left, n + 1)
  {
    StartGrows(first, rest, maxEntries, left, n);
    CappedGrows(first, rest, maxEntries, left);
    Reassociate(first, rest, n, Remainder(rest, maxEntries - 1, left - |Encode(first)|, n));
  }

  lemma NothingRetained(logs: seq<Utf16>, maxEntries: nat, left: nat)
    requires logs == [] || maxEntries == 0 || |Encode(logs[0])| > left
    ensures Retained(logs, maxEntries, left, 0)
  {
    if logs != [] {
      TotalBytesOf(logs[0], []);
      assert logs[..1] == [logs[0]] + [];
    }
  }

  /** What is retained is the longest start of the logs that both caps admit, and after it, when an entry is
      left and bytes are left, that entry cut to the longest text that fits the rest. */
  lemma {:induction false} CappedIsLongestStart(logs: seq<Utf16>, maxEntries: nat, left: nat) returns (n: nat)
    ensures LongestStart(logs, maxEntries, left, n)
    ensures Capped(logs, maxEntries, left) == logs[..n] + Remainder(logs, maxEntries, left, n)
  {
    n := RetainedStart(logs, maxEntries, left);
  }

  lemma {:induction false} RetainedStart(logs: seq<Utf16>, maxEntries: nat, left: nat) returns (n: nat)
    ensures Retained(logs, maxEntries, left, n)
  {
    if logs == [] || maxEntries == 0 || |Encode(logs[0])| > left {
      NothingRetained(logs, maxEntries, left);
      n := 0;
    } else {
      n := RetainedStart(logs[1..], maxEntries - 1, left - |Encode(logs[0])|);
      RetainedGrows(logs[0], logs[1..], maxEntries, left, n);
      assert logs == [logs[0]] + logs[1..];
      n := n + 1;
    }
  }

  lemma {:induction false} TotalAppend(a: seq<Utf16>, b: seq<Utf16>)
    ensures TotalBytes(a + b) == TotalBytes(a) + TotalBytes(b)
  {
    if a == [] {
      assert a + b == b;
    } else {
      assert (a + b)[1..] == a[1..] + b;
      TotalAppend(a[1..], b);
    }
  }

  lemma OneMoreTotal(logs: seq<Utf16>, i: nat)
    requires i < |logs|
    ensures TotalBytes(logs[..i + 1]) == TotalBytes(logs[..i]) + |Encode(logs[i])|
  {
    assert logs[..i + 1] == logs[..i] + [logs[i]];
    TotalAppend(logs[..i], [logs[i]]);
    TotalBytesOf(logs[i], []);
    assert [logs[i]] == [logs[i]] + [];
  }

  lemma TotalGrows(logs: seq<Utf16>, i: nat, j: nat)
    requires i <= j <= |logs|
    ensures TotalBytes(logs[..i]) <= TotalBytes(logs[..j])
  {
    assert logs[..j] == logs[..i] + logs[i..j];
    TotalAppend(logs[..i], logs[i..j]);
  }

  /** There is one longest start. */
  lemma StartIsUnique(logs: seq<Utf16>, maxEntries: nat, left: nat, m: nat, n: nat)
    requires LongestStart(logs, maxEntries, left, m) && LongestStart(logs, maxEntries, left, n)
    ensures m == n
  {
    if m < n {
      TotalGrows(logs, m + 1, n);
    } else if n < m {
      TotalGrows(logs, n + 1, m);
    }
  }

  lemma StartDecides(logs: seq<Utf16>, maxEntries: nat, left: nat, n: nat)
    requires LongestStart(logs, maxEntries, left, n)
    ensures Capped(logs, maxEntries, left) == logs[..n] + Remainder(logs, maxEntries, left, n)
    ensures WithinCaps(logs, maxEntries, left) <==> n == |logs|
  {
    var m := CappedIsLongestStart(logs, maxEntries, left);
    StartIsUnique(logs, maxEntries, left, m, n);
    assert logs[..|logs|] == logs;
    if n < |logs| {
      TotalGrows(logs, n + 1, |logs|);
    }
  }

  method CapLogs(logs: seq<Utf16>, maxEntries: nat, maxBytes: nat) returns (out: seq<Utf16>, truncated: bool)
    ensures out == Capped(logs, maxEntries, maxBytes)
    ensures truncated <==> !WithinCaps(logs, maxEntries, maxBytes)
  {
    truncated := |logs| > maxEntries;
    var kept := if truncated then maxEntries else |logs|;
    out := [];
    var total := 0;
    for i := 0 to kept
      invariant out == logs[..i] && total == TotalBytes(logs[..i]) <= maxBytes
    {
      var s := logs[i];
      var len := |Encode(s)|;
      OneMoreTotal(logs, i);
      if total + len > maxBytes {
        StartDecides(logs, maxEntries, maxBytes, i);
        var remaining := maxBytes - total;
        if remaining > 0 {
          var cut := TruncateUtf8(s, remaining);
          out := out + [cut];
        }
        return out, true;
      }
      out := out + [s];
      total := total + len;
    }
    StartDecides(logs, maxEntries, maxBytes, kept);
  }
}
