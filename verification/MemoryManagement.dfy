/** The memory manager as the CPU sees it: pages, byte patches, host bytes and the code version. */
module MemoryManagement {
  import opened Bits

  const PAGE: nat := 0x1000

  datatype Access = Read | Write | Exec

  /** A mapped (or passed-through) guest page and the host address of its first byte. */
  datatype Page = Page(host: nat, read: bool, write: bool, exec: bool, user: bool)

  /** size bytes from address on are redirected to the host bytes from data on. */
  datatype Patch = Patch(address: u64, size: nat, data: nat)

  datatype Mem = Mem(pages: map<nat, Page>, patches: seq<Patch>, passthrough: bool,
                     host: map<nat, byte>, codeVersion: u64)

  datatype Status = Granted(ptr: nat, user: bool) | Unmapped | Prot

  datatype Option<T> = None | Some(value: T)

  predicate Permits(p: Page, access: Access) {
    match access
    case Read => p.read
    case Write => p.write
    case Exec => p.exec
  }

  predicate Covers(p: Patch, address: u64) {
    p.address <= address < p.address + p.size
  }

  /** The first patch over an address, as the manager's scan finds it. */
  function PatchOver(patches: seq<Patch>, address: u64): Option<Patch>
    decreases |patches|
  {
    if patches == [] then None
    else if Covers(patches[0], address) then Some(patches[0])
    else PatchOver(patches[1..], address)
  }

  function Pointer(mem: Mem, address: u64): nat
    requires address / PAGE in mem.pages
  {
    var base := mem.pages[address / PAGE].host + address % PAGE;
    if mem.passthrough then
      match PatchOver(mem.patches, address)
      case None => base
      case Some(p) => if Covers(p, address) then p.data + (address - p.address) else base
    else base
  }

  function Lookup(mem: Mem, address: u64, access: Access): Status {
    if address / PAGE !in mem.pages then Unmapped
    else
      var page := mem.pages[address / PAGE];
      if !Permits(page, access) then Prot else Granted(Pointer(mem, address), page.user)
  }

  function HostByte(mem: Mem, ptr: nat): byte {
    if ptr in mem.host then mem.host[ptr] else 0
  }

  /** What instruction fetch can see at an address, whatever the privilege level. */
  function CodeByte(mem: Mem, address: u64): Option<byte> {
    match Lookup(mem, address, Exec)
    case Granted(ptr, _) => Some(HostByte(mem, ptr))
    case _ => None
  }

  class MemoryManager {
    var pages: map<nat, Page>
    var patches: seq<Patch>
    var passthrough: bool
    var host: map<nat, byte>
    var codeVersion: u64

    function View(): Mem
      reads this
    {
      Mem(pages, patches, passthrough, host, codeVersion)
    }

    constructor ()
      ensures codeVersion == 1 && pages == map[] && patches == [] && !passthrough
    {
      pages, patches, passthrough, host, codeVersion := map[], [], false, map[], 1;
    }

    method LoadView(mem: Mem)
      modifies this
      ensures View() == mem
    {
      pages, patches, passthrough, host, codeVersion := mem.pages, mem.patches, mem.passthrough, mem.host,
          mem.codeVersion;
    }

    method GetPtrChecked(address: u64, access: Access) returns (status: Status)
      ensures status == Lookup(View(), address, access)
    {
      if address / PAGE !in pages {
        return Unmapped;
      }
      var page := pages[address / PAGE];
      if !Permits(page, access) {
        return Prot;
      }
      var ptr := page.host + address % PAGE;
      if |patches| != 0 && passthrough {
        var index := 0;
        while index < |patches|
          invariant 0 <= index <= |patches|
          invariant PatchOver(patches[index..], address) == PatchOver(patches, address)
        {
          var p := patches[index];
          assert patches[index..][1..] == patches[index + 1..];
          if Covers(p, address) {
            return Granted(p.data + (address - p.address), page.user);
          }
          index := index + 1;
        }
      }
      status := Granted(ptr, page.user);
    }

    /** Versions only grow, except that the counter skips zero when it wraps. */
    method BumpCodeVersion()
      modifies `codeVersion
      ensures codeVersion != 0
      ensures old(codeVersion) != WORD - 1 ==> codeVersion == old(codeVersion) + 1
    {
      codeVersion := Wrap(codeVersion + 1);
      if codeVersion == 0 {
        codeVersion := 1;
      }
    }

    method WriteHost(ptr: nat, value: byte)
      modifies `host
      ensures host == old(host)[ptr := value]
    {
      host := host[ptr := value];
    }
  }
}
