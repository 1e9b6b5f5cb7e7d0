/** The gas available to the transactions of a block. */
module GasPool {
  import opened Common

  class GasPool {
    var gas: U64
    var blobGas: U64

    constructor ()
      ensures gas == 0 && blobGas == 0
    {
      gas, blobGas := 0, 0;
    }

    /** Panics above uint64; `ok` is whether it returned. */
    method AddGas(amount: U64) returns (ok: bool)
      modifies `gas
      ensures ok <==> old(gas) + amount < TWO_64
      ensures gas == old(gas) + if ok then amount else 0
    {
      if gas > TWO_64 - 1 - amount {
        return false;
      }
      gas := gas + amount;
      return true;
    }

    /** ErrGasLimitReached is `!ok`. */
    method SubGas(amount: U64) returns (ok: bool)
      modifies `gas
      ensures ok <==> amount <= old(gas)
      ensures gas == old(gas) - if ok then amount else 0
    {
      if gas < amount {
        return false;
      }
      gas := gas - amount;
      return true;
    }

    method SubBlobGas(amount: U64) returns (ok: bool)
      modifies `blobGas
      ensures ok <==> amount <= old(blobGas)
      ensures blobGas == old(blobGas) - if ok then amount else 0
    {
      if blobGas < amount {
        return false;
      }
      blobGas := blobGas - amount;
      return true;
    }
  }
}
