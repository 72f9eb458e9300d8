/** The budget that gates every file attempt and every byte read (crates/kitrove-core/src/limits.rs:37-55, 272-290). */
module CaptureBudget {
  import opened Bytes

  const U64_MAX: nat := 0xffff_ffff_ffff_ffff

  /** The request-global budget that gates every file attempt and every byte read. */
  class ScanBudget {
    const maxFiles: nat
    const maxBytes: nat
    var fileAttempts: nat
    var bytesRead: nat

    constructor (maxFiles: nat, maxBytes: nat)
      requires maxBytes <= U64_MAX
      ensures Valid() && fileAttempts == 0 && bytesRead == 0
      ensures this.maxFiles == maxFiles && this.maxBytes == maxBytes
    {
      this.maxFiles, this.maxBytes := maxFiles, maxBytes;
      fileAttempts, bytesRead := 0, 0;
    }

    predicate Valid()
      reads this
    {
      fileAttempts <= maxFiles && bytesRead <= maxBytes <= U64_MAX
    }

    function RemainingBytes(): nat
      reads this
    {
      Max(maxBytes - bytesRead, 0)
    }

    method TryFileAttempt() returns (granted: bool)
      requires Valid()
      modifies this`fileAttempts
      ensures Valid() && granted == (old(fileAttempts) < maxFiles)
      ensures fileAttempts == old(fileAttempts) + if granted then 1 else 0
    {
      if fileAttempts >= maxFiles {
        return false;
      }
      fileAttempts := fileAttempts + 1;
      return true;
    }

    method TryChargeBytes(bytes: nat) returns (granted: bool)
      requires Valid()
      modifies this`bytesRead
      ensures Valid() && granted == (bytes <= old(RemainingBytes()))
      ensures bytesRead == old(bytesRead) + if granted then bytes else 0
    {
      if bytes > RemainingBytes() {
        return false;
      }
      bytesRead := Min(bytesRead + bytes, U64_MAX);
      return true;
    }
  }
}
