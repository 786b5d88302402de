/** The exchange-rate table the converter page works on: the fetched entries
    with a synthetic Polish zloty entry appended at parity, and the
    first-match lookup by currency code that `Array.prototype.find` performs.
    Mid rates are kept as exact reals. */
module RateTable {
  import opened Options

  datatype ExchangeRate = ExchangeRate(currency: string, code: string, mid: real)

  /** The home-currency code and the entry the page appends for it. */
  const HomeCode: string := "PLN"
  const HomeEntry: ExchangeRate := ExchangeRate("Polish Zloty", HomeCode, 1.0)

  predicate HasCode(table: seq<ExchangeRate>, code: string) {
    exists i :: 0 <= i < |table| && table[i].code == code
  }

  /** The response's rates with the home entry pushed onto the end. */
  function Normalise(fetched: seq<ExchangeRate>): (table: seq<ExchangeRate>)
    ensures |table| == |fetched| + 1
    ensures table[..|fetched|] == fetched
    ensures table[|fetched|] == HomeEntry
    ensures HasCode(table, HomeCode)
  {
    fetched + [HomeEntry]
  }

  /** `table.find(rate => rate.code === code)?.mid`: the mid rate of the
      first entry with that code, or nothing when no entry has it. */
  function FindMid(table: seq<ExchangeRate>, code: string): (r: Option<real>)
    ensures r.None? <==> !HasCode(table, code)
    ensures r.Some? ==> exists i :: 0 <= i < |table| && table[i].code == code && table[i].mid == r.value
                                    && forall j :: 0 <= j < i ==> table[j].code != code
    decreases |table|
  {
    if |table| == 0 then None
    else if table[0].code == code then Some(table[0].mid)
    else
      var r := FindMid(table[1..], code);
      assert HasCode(table, code) ==> HasCode(table[1..], code) by {
        if HasCode(table, code) {
          var i :| 0 <= i < |table| && table[i].code == code;
          assert table[1..][i - 1].code == code;
        }
      }
      assert r.Some? ==> exists i :: 0 <= i < |table| && table[i].code == code && table[i].mid == r.value
                                     && forall j :: 0 <= j < i ==> table[j].code != code by {
        if r.Some? {
          var k :| 0 <= k < |table[1..]| && table[1..][k].code == code && table[1..][k].mid == r.value
                   && forall j :: 0 <= j < k ==> table[1..][j].code != code;
          assert table[k + 1].code == code && table[k + 1].mid == r.value;
          assert forall j :: 0 <= j < k + 1 ==> table[j].code != code by {
            forall j | 0 <= j < k + 1 ensures table[j].code != code {
              if j > 0 { assert table[j] == table[1..][j - 1]; }
            }
          }
        }
      }
      r
  }

  /** The entry at the first index carrying `code` decides the lookup. */
  lemma {:induction false} FindMidAtFirstIndex(table: seq<ExchangeRate>, code: string, i: nat)
    requires i < |table| && table[i].code == code
    requires forall j :: 0 <= j < i ==> table[j].code != code
    ensures FindMid(table, code) == Some(table[i].mid)
    decreases i
  {
    if i > 0 {
      FindMidAtFirstIndex(table[1..], code, i - 1);
    }
  }

  /** Appending entries never changes a lookup that already succeeds. */
  lemma {:induction false} FindMidAppendFound(table: seq<ExchangeRate>, extra: seq<ExchangeRate>, code: string)
    requires HasCode(table, code)
    ensures FindMid(table + extra, code) == FindMid(table, code)
    decreases |table|
  {
    if table[0].code != code {
      assert table[1..] + extra == (table + extra)[1..];
      assert HasCode(table[1..], code) by {
        var i :| 0 <= i < |table| && table[i].code == code;
        assert table[1..][i - 1].code == code;
      }
      FindMidAppendFound(table[1..], extra, code);
    }
  }

  /** Appending entries to a table that lacks the code makes the lookup look
      only at the appended entries. */
  lemma {:induction false} FindMidAppendMissing(table: seq<ExchangeRate>, extra: seq<ExchangeRate>, code: string)
    requires !HasCode(table, code)
    ensures FindMid(table + extra, code) == FindMid(extra, code)
    decreases |table|
  {
    if table != [] {
      assert table[1..] + extra == (table + extra)[1..];
      FindMidAppendMissing(table[1..], extra, code);
    } else {
      assert table + extra == extra;
    }
  }

  /** If the fetched rates carry no PLN entry, PLN looks up at exactly 1. */
  lemma HomeRateIsParity(fetched: seq<ExchangeRate>)
    requires !HasCode(fetched, HomeCode)
    ensures FindMid(Normalise(fetched), HomeCode) == Some(1.0)
  {
    FindMidAppendMissing(fetched, [HomeEntry], HomeCode);
  }

  /** Normalising keeps every fetched lookup: a code the response has keeps
      the response's first rate, PLN included (the appended entry is then
      shadowed); any other code is still missing. */
  lemma NormalisePreservesLookup(fetched: seq<ExchangeRate>, code: string)
    ensures HasCode(fetched, code) ==> FindMid(Normalise(fetched), code) == FindMid(fetched, code)
    ensures !HasCode(fetched, code) && code != HomeCode ==> FindMid(Normalise(fetched), code) == None
  {
    if HasCode(fetched, code) {
      FindMidAppendFound(fetched, [HomeEntry], code);
    } else {
      FindMidAppendMissing(fetched, [HomeEntry], code);
    }
  }
}
