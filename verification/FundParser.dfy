/** The second, independent decoder of transfer calls: fund records. */
module FundParser {
  import opened Wrappers
  import opened Text
  import opened Chain
  import opened Erc20Parser

  datatype FundRecord = FundRecord(
    txHash: string, sender: string, recipient: string, contract: string, amount: string, time: nat)

  /** Shift-and-add; "" if some character is no digit. */
  method HexToDecimal(hex: string) returns (r: string)
    ensures r == DecOf(hex)
  {
    var value: nat := 0;
    var i := 0;
    while i < |hex|
      invariant i <= |hex| && AllHex(hex[..i])
      invariant value == HexValue(hex[..i])
    {
      var c := hex[i];
      value := value * 16;
      assert hex[..i + 1] == hex[..i] + [c];
      assert hex[..i + 1][..i] == hex[..i];
      if '0' <= c <= '9' {
        value := value + (c - '0') as int;
      } else if 'a' <= c <= 'f' {
        value := value + (c - 'a') as int + 10;
      } else if 'A' <= c <= 'F' {
        value := value + (c - 'A') as int + 10;
      } else {
        return "";
      }
      i := i + 1;
    }
    assert hex[..i] == hex;
    r := Decimal(value);
  }

  /** The input as this decoder sees it: only a lower-case "0x" is removed, and before folding case. */
  function FundInput(ti: TxInfo): string {
    Lower(if StartsWith(ti.input, "0x") then ti.input[2..] else ti.input)
  }

  function FundOf(tx: Transaction): Option<FundRecord> {
    if tx.ty != 8 || tx.info.None? then None else
      var ti := tx.info.value;
      var input := FundInput(ti);
      if |input| < 8 + 64 + 64 || input[..8] != TRANSFER || DecOf(Arg(input, 1)) == "" then None
      else Some(FundRecord(tx.hash, ti.sender.GetOr(tx.identity), "0x" + Arg(input, 0)[24..], ti.recipient,
                           DecOf(Arg(input, 1)), tx.time))
  }

  method Parse(tx: Transaction) returns (r: Option<FundRecord>)
    ensures r == FundOf(tx)
  {
    if tx.ty != 8 || tx.info.None? { return None; }
    var ti := tx.info.value;
    var input := ti.input;
    if StartsWith(input, "0x") {
      input := input[2..];
    }
    input := Lower(input);
    if |input| < 8 + 64 + 64 || input[..8] != TRANSFER { return None; }
    var addressWord := input[8..72];
    var amountWord := input[72..136];
    var amount := HexToDecimal(amountWord);
    if amount == "" { return None; }
    var sender := ti.sender.GetOr(tx.identity);
    return Some(FundRecord(tx.hash, sender, "0x" + addressWord[24..], ti.recipient, amount, tx.time));
  }
}
