/** BAR lengths and the lazily filled BAR mapping cache. The host call
    `StorPortGetDeviceBase` is a parameter: a function of the bus number, the
    BAR's physical base, its length and its port-space flag that may return
    `None` (a null base). */
module BarMap {
  import opened Types
  import opened Adapter

  /** Stand-in for `StorPortGetDeviceBase(bus, basePA, length, inIoSpace)`. */
  type DeviceBaseFn = (nat, nat, nat, bool) -> Option<Ptr>

  /** The arguments of one host mapping request. */
  datatype MapRequest = MapRequest(busNumber: nat, basePA: nat, length: nat, inIoSpace: bool)

  /** The returned pointer, the host request made (if any) and the new state. */
  datatype MapResult = MapResult(ptr: Option<Ptr>, request: Option<MapRequest>, adapter: AdapterExtension)

  /** `pci_get_resource_len`. */
  function PciGetResourceLen(s: AdapterExtension, bar: int): (len: nat)
    requires s.Valid()
    requires 0 <= bar
    ensures bar < PCI_TYPE0_ADDRESSES ==> len == s.pciBars[bar].uLength
    ensures bar >= PCI_TYPE0_ADDRESSES ==> len == 0
  {
    if bar < PCI_TYPE0_ADDRESSES then s.pciBars[bar].uLength else 0
  }

  /** The request `pci_map_address_range` makes for an unmapped BAR. */
  function RequestFor(s: AdapterExtension, b: Bar): MapRequest
  {
    MapRequest(s.systemIoBusNumber, b.basePA, b.uLength, b.bPortSpace)
  }

  /** `pci_map_address_range`. `maxlen` is accepted and ignored. */
  function PciMapAddressRange(s: AdapterExtension, bar: int, offset: nat, maxlen: nat,
                              getDeviceBase: DeviceBaseFn): (r: MapResult)
    requires s.Valid()
    requires 0 <= bar
    ensures r.adapter.Valid()
    ensures bar >= PCI_TYPE0_ADDRESSES ==> r == MapResult(None, None, s)
    ensures bar < PCI_TYPE0_ADDRESSES ==>
      var before := s.pciBars[bar];
      var after := r.adapter.pciBars[bar];
      // a host request is made exactly when the cached base is null
      && (r.request.Some? <==> before.pBase.None?)
      && (r.request.Some? ==> r.request.value == RequestFor(s, before)
                              && after.pBase == getDeviceBase(s.systemIoBusNumber, before.basePA, before.uLength, before.bPortSpace))
      // a non-null cached base is never replaced
      && (before.pBase.Some? ==> r.adapter == s)
      // only the pBase of the selected BAR may change
      && after == before.(pBase := after.pBase)
      && r.adapter == s.(pciBars := s.pciBars[bar := after])
      // a pointer is returned iff the BAR is mapped and the offset is inside it
      && (r.ptr.Some? <==> after.pBase.Some? && offset < before.uLength)
      && (r.ptr.Some? ==> r.ptr.value == after.pBase.value + offset)
  {
    if bar < PCI_TYPE0_ADDRESSES then
      var pBar := s.pciBars[bar];
      var request := if pBar.pBase.None? then Some(RequestFor(s, pBar)) else None;
      var pBar' := if pBar.pBase.None?
                   then pBar.(pBase := getDeviceBase(s.systemIoBusNumber, pBar.basePA, pBar.uLength, pBar.bPortSpace))
                   else pBar;
      var s' := s.(pciBars := s.pciBars[bar := pBar']);
      var ptr := if pBar'.pBase.Some? && offset < pBar'.uLength then Some(pBar'.pBase.value + offset) else None;
      MapResult(ptr, request, s')
    else
      MapResult(None, None, s)
  }

  /** `pci_unmap_address_range`: mappings are released by the port driver at
      shutdown, so nothing changes here. */
  function PciUnmapAddressRange(s: AdapterExtension, address: nat): (r: AdapterExtension)
    ensures r == s
  {
    s
  }

  /** Mapping never forgets or replaces a mapping of any BAR. */
  lemma MappingsPersist(s: AdapterExtension, bar: int, offset: nat, maxlen: nat, f: DeviceBaseFn, i: int)
    requires s.Valid() && 0 <= bar
    requires 0 <= i < PCI_TYPE0_ADDRESSES && s.pciBars[i].pBase.Some?
    ensures PciMapAddressRange(s, bar, offset, maxlen, f).adapter.pciBars[i] == s.pciBars[i]
  {
  }

  /** Mapping leaves every BAR length as it was. */
  lemma MappingKeepsLengths(s: AdapterExtension, bar: int, offset: nat, maxlen: nat, f: DeviceBaseFn, i: int)
    requires s.Valid() && 0 <= bar && 0 <= i
    ensures var t := PciMapAddressRange(s, bar, offset, maxlen, f).adapter;
            t.Valid() && PciGetResourceLen(t, i) == PciGetResourceLen(s, i)
  {
  }

  /** Once a call has cached a non-null base, a second call (whatever the host
      would answer) makes no request, returns the same pointer for the same
      offset and changes nothing. */
  lemma MapIsCached(s: AdapterExtension, bar: int, offset: nat, maxlen: nat, maxlen2: nat,
                    f: DeviceBaseFn, g: DeviceBaseFn)
    requires s.Valid() && 0 <= bar < PCI_TYPE0_ADDRESSES
    requires PciMapAddressRange(s, bar, offset, maxlen, f).adapter.pciBars[bar].pBase.Some?
    ensures var r1 := PciMapAddressRange(s, bar, offset, maxlen, f);
            var r2 := PciMapAddressRange(r1.adapter, bar, offset, maxlen2, g);
            && r2.request.None?
            && r2.ptr == r1.ptr
            && r2.adapter == r1.adapter
  {
  }

  /** A null answer from the host is not cached: the state is unchanged, no
      pointer is returned, and the next call asks the host again. */
  lemma FailedMappingIsRetried(s: AdapterExtension, bar: int, offset: nat, maxlen: nat, f: DeviceBaseFn)
    requires s.Valid() && 0 <= bar < PCI_TYPE0_ADDRESSES
    requires s.pciBars[bar].pBase.None?
    requires PciMapAddressRange(s, bar, offset, maxlen, f).adapter.pciBars[bar].pBase.None?
    ensures var r1 := PciMapAddressRange(s, bar, offset, maxlen, f);
            && r1.adapter == s
            && r1.ptr.None?
            && PciMapAddressRange(r1.adapter, bar, offset, maxlen, f).request.Some?
  {
    var r1 := PciMapAddressRange(s, bar, offset, maxlen, f);
    assert r1.adapter.pciBars == s.pciBars;
  }

  /** The result does not depend on `maxlen`. */
  lemma MaxlenIgnored(s: AdapterExtension, bar: int, offset: nat, m1: nat, m2: nat, f: DeviceBaseFn)
    requires s.Valid() && 0 <= bar
    ensures PciMapAddressRange(s, bar, offset, m1, f) == PciMapAddressRange(s, bar, offset, m2, f)
  {
  }

  /** BAR 0 of length 0x1000, unmapped: mapping offset 0x500 asks the host once
      and returns base + 0x500; repeating the call returns the same pointer
      with no new request. */
  lemma MapScenario(s: AdapterExtension, base: Ptr, f: DeviceBaseFn)
    requires s.Valid()
    requires s.pciBars[0].uLength == 0x1000 && s.pciBars[0].pBase.None?
    requires f(s.systemIoBusNumber, s.pciBars[0].basePA, 0x1000, s.pciBars[0].bPortSpace) == Some(base)
    ensures var r1 := PciMapAddressRange(s, 0, 0x500, 0x100, f);
            var r2 := PciMapAddressRange(r1.adapter, 0, 0x500, 0x100, f);
            && r1.request.Some? && r1.ptr == Some(base + 0x500)
            && r2.request.None? && r2.ptr == Some(base + 0x500)
  {
  }
}
