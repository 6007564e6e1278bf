/**
 * `BROKERS` and `getBroker` of `src/lib/broker-parsers.js`: the registered parsers
 * and their lookup by name.
 */
module BrokerRegistry {
  import opened Js
  import opened TradeModel
  import TopstepX
  import Tradovate

  datatype ParserKind = TopstepXParser | TradovateParser

  /** A registered parser: its `name`, its `label` (shown to the user) and which parse it runs. */
  datatype Broker = Broker(name: string, displayName: string, kind: ParserKind)

  /** `BROKERS`, in registration order. */
  const Brokers: seq<Broker> := [
    Broker("topstepx", "TopstepX", TopstepXParser),
    Broker("tradovate", "Tradovate", TradovateParser)]

  /** The first broker of `bs` whose name is `name`. */
  function Find(bs: seq<Broker>, name: string): (r: Option<Broker>)
    ensures r.None? <==> forall i :: 0 <= i < |bs| ==> bs[i].name != name
    ensures r.Some? ==> r.value.name == name
    ensures r.Some? ==> exists i :: 0 <= i < |bs| && bs[i] == r.value && (forall j :: 0 <= j < i ==> bs[j].name != name)
  {
    if bs == [] then None
    else if bs[0].name == name then Some(bs[0])
    else
      var r := Find(bs[1..], name);
      assert forall i :: 1 <= i < |bs| ==> bs[1..][i - 1] == bs[i];
      r
  }

  /** `getBroker(name)`: `BROKERS.find((b) => b.name === name)`, None for `undefined`. */
  function GetBroker(name: string): (r: Option<Broker>)
    ensures r.Some? <==> name == "topstepx" || name == "tradovate"
    ensures r.Some? ==> r.value in Brokers && r.value.name == name
  {
    Find(Brokers, name)
  }

  lemma GetBrokerExamples()
    ensures GetBroker("tradovate") == Some(Broker("tradovate", "Tradovate", TradovateParser))
    ensures GetBroker("topstepx") == Some(Broker("topstepx", "TopstepX", TopstepXParser))
    ensures GetBroker("TopstepX") == None
  {
    assert Brokers[1..] == [Broker("tradovate", "Tradovate", TradovateParser)];
    assert Brokers[1..][1..] == [];
  }

  /** `broker.parse(text)` for a registered broker. */
  method Parse(env: Env, b: Broker, text: string) returns (trades: seq<Trade>)
    ensures b.kind == TopstepXParser ==> trades == TopstepX.Parse(env, text)
    ensures b.kind == TradovateParser ==> trades == Tradovate.ParseSpec(env, text)
  {
    match b.kind {
      case TopstepXParser => trades := TopstepX.Parse(env, text);
      case TradovateParser => trades := Tradovate.ParseText(env, text);
    }
  }
}
