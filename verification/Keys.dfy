/** Cache keys: parts joined by ':' and the parser that takes them apart again. */
module Keys {

  predicate ColonFree(s: string) { ':' !in s }

  function TimeSeriesKey(symbol: string, exchange: string): string {
    "timeseries:" + symbol + ":" + exchange
  }

  function LatestKey(symbol: string, exchange: string): string {
    "latest:" + symbol + ":" + exchange
  }

  function Join(parts: seq<string>): string {
    if parts == [] then ""
    else if |parts| == 1 then parts[0]
    else parts[0] + ":" + Join(parts[1..])
  }

  /** The parts still to come when current has been read of the present part and key is unread. */
  function SplitFrom(current: string, key: string): seq<string>
    decreases |key|
  {
    if key == "" then (if current == "" then [] else [current])
    else if key[0] == ':' then [current] + SplitFrom("", key[1..])
    else SplitFrom(current + [key[0]], key[1..])
  }

  function Split(key: string): seq<string> {
    SplitFrom("", key)
  }

  method ParseTimeSeriesKey(key: string) returns (result: seq<string>)
    ensures result == Split(key)
  {
    result := [];
    var current := "";
    for i := 0 to |key|
      invariant result + SplitFrom(current, key[i..]) == Split(key)
    {
      var c := key[i];
      assert key[i..][0] == c && key[i..][1..] == key[i + 1..];
      if c == ':' {
        assert result + ([current] + SplitFrom("", key[i + 1..])) == result + [current] + SplitFrom("", key[i + 1..]);
        result := result + [current];
        current := "";
      } else {
        current := current + [c];
      }
    }
    if current != "" {
      result := result + [current];
    }
  }

  lemma {:induction false} SplitPastPart(current: string, part: string, rest: string)
    requires ColonFree(part)
    ensures SplitFrom(current, part + rest) == SplitFrom(current + part, rest)
    decreases |part|
  {
    if part == "" {
      assert part + rest == rest && current + part == current;
    } else {
      assert part[0] in part;
      assert (part + rest)[1..] == part[1..] + rest;
      SplitPastPart(current + [part[0]], part[1..], rest);
      assert current + [part[0]] + part[1..] == current + part;
    }
  }

  lemma {:induction false} SplitOfJoin(parts: seq<string>)
    requires parts != [] && parts[|parts| - 1] != ""
    requires forall i :: 0 <= i < |parts| ==> ColonFree(parts[i])
    ensures Split(Join(parts)) == parts
  {
    if |parts| == 1 {
      SplitPastPart("", parts[0], "");
      assert parts[0] + "" == parts[0] && "" + parts[0] == parts[0];
    } else {
      var rest := Join(parts[1..]);
      SplitPastPart("", parts[0], ":" + rest);
      assert parts[0] + ":" + rest == parts[0] + (":" + rest);
      assert "" + parts[0] == parts[0];
      assert (":" + rest)[1..] == rest;
      SplitOfJoin(parts[1..]);
    }
  }

  /** key without one trailing ':', if it ends in one. */
  function WithoutTrailingColon(key: string): string {
    if key != "" && key[|key| - 1] == ':' then key[..|key| - 1] else key
  }

  lemma TrailingColonOfSuffix(prefix: string, key: string)
    requires key != ""
    ensures WithoutTrailingColon(prefix + key) == prefix + WithoutTrailingColon(key)
  {
    assert (prefix + key)[..|prefix + key| - 1] == prefix + key[..|key| - 1];
  }

  lemma {:induction false} JoinOfSplitFrom(current: string, key: string)
    requires ColonFree(current)
    ensures Join(SplitFrom(current, key)) == WithoutTrailingColon(current + key)
    decreases |key|
  {
    if key == "" {
      assert current + key == current;
    } else if key[0] == ':' {
      var tail := key[1..];
      var rest := SplitFrom("", tail);
      JoinOfSplitFrom("", tail);
      assert "" + tail == tail;
      assert ([current] + rest)[1..] == rest;
      if tail == "" {
        assert key == ":";
        TrailingColonOfSuffix(current, key);
      } else {
        SplitFromNonempty("", tail);
        assert current + key == (current + ":") + tail;
        TrailingColonOfSuffix(current + ":", tail);
      }
    } else {
      JoinOfSplitFrom(current + [key[0]], key[1..]);
      assert current + [key[0]] + key[1..] == current + key;
    }
  }

  lemma {:induction false} SplitFromNonempty(current: string, key: string)
    requires current + key != ""
    ensures SplitFrom(current, key) != []
    decreases |key|
  {
    if key != "" && key[0] != ':' {
      SplitFromNonempty(current + [key[0]], key[1..]);
    }
  }

  /** Joining the parse of any key gives the key back, less one trailing ':'. */
  lemma JoinOfSplit(key: string)
    ensures Join(Split(key)) == WithoutTrailingColon(key)
  {
    JoinOfSplitFrom("", key);
    assert "" + key == key;
  }

  lemma {:induction false} SplitPartsColonFree(current: string, key: string)
    requires ColonFree(current)
    ensures forall i :: 0 <= i < |SplitFrom(current, key)| ==> ColonFree(SplitFrom(current, key)[i])
    decreases |key|
  {
    if key == "" {
    } else if key[0] == ':' {
      SplitPartsColonFree("", key[1..]);
    } else {
      SplitPartsColonFree(current + [key[0]], key[1..]);
    }
  }

  lemma {:induction false} JoinEndsInColon(parts: seq<string>)
    requires |parts| >= 2 && parts[|parts| - 1] == ""
    ensures Join(parts) != "" && Join(parts)[|Join(parts)| - 1] == ':'
  {
    if |parts| > 2 {
      JoinEndsInColon(parts[1..]);
    } else {
      assert Join(parts[1..]) == "";
    }
  }

  /** Exactly the lists a key can carry: parsing undoes joining iff no part holds a ':' and the last
      part is not empty. */
  lemma RoundTripIff(parts: seq<string>)
    requires parts != []
    ensures
      Split(Join(parts)) == parts <==>
      (parts[|parts| - 1] != "" && forall i :: 0 <= i < |parts| ==> ColonFree(parts[i]))
  {
    if parts[|parts| - 1] != "" && forall i :: 0 <= i < |parts| ==> ColonFree(parts[i]) {
      SplitOfJoin(parts);
    } else if Split(Join(parts)) == parts {
      SplitPartsColonFree("", Join(parts));
      JoinOfSplit(Join(parts));
      assert |parts| >= 2;
      JoinEndsInColon(parts);
      assert false;
    }
  }

  /** A stored series key yields its symbol and exchange again; with an empty exchange name it has
      too few parts to be used. */
  lemma SeriesKeyParts(symbol: string, exchange: string)
    requires ColonFree(symbol) && ColonFree(exchange)
    ensures exchange != "" ==> Split(TimeSeriesKey(symbol, exchange)) == ["timeseries", symbol, exchange]
    ensures exchange == "" ==> |Split(TimeSeriesKey(symbol, exchange))| < 3
  {
    var key := TimeSeriesKey(symbol, exchange);
    var tag := "timeseries";
    assert ColonFree(tag);
    var parts := [tag, symbol, exchange];
    assert parts[1..] == [symbol, exchange] && [symbol, exchange][1..] == [exchange];
    assert Join([symbol, exchange]) == symbol + ":" + exchange;
    assert Join(parts) == tag + ":" + (symbol + ":" + exchange);
    assert key == Join(parts);
    if exchange != "" {
      SplitOfJoin(parts);
    } else {
      SplitPastPart("", tag, ":" + symbol + ":");
      assert key == tag + (":" + symbol + ":");
      assert "" + tag == tag;
      assert (":" + symbol + ":")[1..] == symbol + ":";
      SplitPastPart("", symbol, ":");
      assert "" + symbol == symbol;
    }
  }

  /** The first parts of a key. */
  lemma TaggedParts(tag: string, symbol: string, rest: string)
    requires ColonFree(tag) && ColonFree(symbol)
    ensures Split(tag + ":" + symbol + ":" + rest) == [tag, symbol] + SplitFrom("", rest)
  {
    var key := tag + ":" + symbol + ":" + rest;
    var y := ":" + rest;
    var x := ":" + (symbol + y);
    assert key == tag + x && y[1..] == rest;
    assert "" + tag == tag && "" + symbol == symbol && x[1..] == symbol + y;
    SplitPastPart("", tag, x);
    SplitPastPart("", symbol, y);
    assert SplitFrom(tag, x) == [tag] + SplitFrom("", symbol + y);
    assert SplitFrom(symbol, y) == [symbol] + SplitFrom("", rest);
  }

  /** The first parts of a series key that starts like the symbol's keys. */
  lemma FirstParts(symbol: string, rest: string)
    requires ColonFree(symbol)
    ensures Split(TimeSeriesKey(symbol, "") + rest) == ["timeseries", symbol] + SplitFrom("", rest)
  {
    assert TimeSeriesKey(symbol, "") + rest == "timeseries" + ":" + symbol + ":" + rest;
    TaggedParts("timeseries", symbol, rest);
  }

  /** A latest key starts like the keys of just one symbol without ':', its own. */
  lemma LatestPrefixNames(symbol: string, other: string, exchange: string)
    requires ColonFree(symbol) && ColonFree(other)
    ensures LatestKey(symbol, "") <= LatestKey(other, exchange) <==> symbol == other
  {
    var key := LatestKey(other, exchange);
    assert key == "latest" + ":" + other + ":" + exchange;
    if symbol == other {
      assert key == LatestKey(symbol, "") + exchange;
    }
    if LatestKey(symbol, "") <= key {
      var rest := key[|LatestKey(symbol, "")|..];
      assert key == "latest" + ":" + symbol + ":" + rest;
      TaggedParts("latest", symbol, rest);
      TaggedParts("latest", other, exchange);
      assert Split(key)[1] == symbol && Split(key)[1] == other;
    }
  }

  /** Latest keys of symbols without ':' are the same only for the same symbol and exchange. */
  lemma LatestKeyNames(symbol: string, exchange: string, symbol': string, exchange': string)
    requires ColonFree(symbol) && ColonFree(symbol')
    ensures LatestKey(symbol, exchange) == LatestKey(symbol', exchange') <==> symbol == symbol' && exchange == exchange'
  {
    if LatestKey(symbol, exchange) == LatestKey(symbol', exchange') {
      assert LatestKey(symbol, exchange) == LatestKey(symbol, "") + exchange;
      LatestPrefixNames(symbol, symbol', exchange');
      assert LatestKey(symbol', exchange') == LatestKey(symbol, "") + exchange';
      assert exchange == LatestKey(symbol, exchange)[|LatestKey(symbol, "")|..];
    }
  }

  /** A series key that starts like the symbol's keys is one of that symbol's. */
  lemma SymbolOfKey(symbol: string, other: string, exchange: string)
    requires ColonFree(symbol) && ColonFree(other) && ColonFree(exchange) && exchange != ""
    requires TimeSeriesKey(symbol, "") <= TimeSeriesKey(other, exchange)
    ensures other == symbol
  {
    var key := TimeSeriesKey(other, exchange);
    var rest := key[|TimeSeriesKey(symbol, "")|..];
    SeriesKeyParts(other, exchange);
    assert key == TimeSeriesKey(symbol, "") + rest;
    FirstParts(symbol, rest);
    assert Split(key)[1] == symbol && Split(key)[1] == other;
  }

  /** A key listed for a symbol is reported under that symbol and the key's third part. For a key written
      for some symbol and exchange these are the right names exactly when neither holds a ':'. */
  lemma NamesReportedIff(symbol: string, other: string, exchange: string)
    requires ColonFree(symbol) && TimeSeriesKey(symbol, "") <= TimeSeriesKey(other, exchange)
    requires |Split(TimeSeriesKey(other, exchange))| >= 3
    ensures
      other == symbol && Split(TimeSeriesKey(other, exchange))[2] == exchange <==>
      ColonFree(other) && ColonFree(exchange)
  {
    var key := TimeSeriesKey(other, exchange);
    SplitPartsColonFree("", key);
    if ColonFree(other) && ColonFree(exchange) {
      SeriesKeyParts(other, exchange);
      SymbolOfKey(symbol, other, exchange);
    }
  }
}
