/** MSI-X vector selection for virtqueues and the configuration-change
    interrupt. */
module Msix {
  import opened Types
  import opened Adapter

  /** `VIRTIO_MSI_NO_VECTOR` (section 4.1.5.1.2 of the Virtio 1.0 specification). */
  const VIRTIO_MSI_NO_VECTOR: u16 := 0xFFFF

  /** `vdev_get_msix_vector`. A negative `queue` denotes the configuration-change
      interrupt; `queue + 1` is truncated to 16 bits when stored. */
  function VdevGetMsixVector(s: AdapterExtension, queue: int): (vector: u16)
    ensures queue >= 0 && s.msixEnabled ==> vector == (queue + 1) % 0x1_0000
    ensures queue >= 0 && !s.msixEnabled ==> vector == VIRTIO_MSI_NO_VECTOR
    ensures queue < 0 ==> vector == VIRTIO_MSI_NO_VECTOR
  {
    if queue >= 0 then
      if s.msixEnabled then (queue + 1) % 0x1_0000 else VIRTIO_MSI_NO_VECTOR
    else
      VIRTIO_MSI_NO_VECTOR
  }

  /** With MSI-X enabled, queues below 0xFFFE get distinct vectors that are
      neither 0 nor the sentinel. */
  lemma QueueVectorsDistinct(s: AdapterExtension, q1: int, q2: int)
    requires s.msixEnabled
    requires 0 <= q1 < 0xFFFE && 0 <= q2 < 0xFFFE
    ensures VdevGetMsixVector(s, q1) != 0 && VdevGetMsixVector(s, q1) != VIRTIO_MSI_NO_VECTOR
    ensures q1 != q2 <==> VdevGetMsixVector(s, q1) != VdevGetMsixVector(s, q2)
  {
  }

  /** The 16-bit truncation: queue 0xFFFE collides with the sentinel and queue
      0xFFFF wraps to vector 0. */
  lemma VectorWraps(s: AdapterExtension)
    requires s.msixEnabled
    ensures VdevGetMsixVector(s, 0xFFFE) == VIRTIO_MSI_NO_VECTOR
    ensures VdevGetMsixVector(s, 0xFFFF) == 0
  {
  }

  /** The configuration-change interrupt never gets a vector, whatever the
      MSI-X state. */
  lemma ConfigChangeHasNoVector(s: AdapterExtension, queue: int)
    requires queue < 0
    ensures VdevGetMsixVector(s, queue) == VIRTIO_MSI_NO_VECTOR
    ensures VdevGetMsixVector(s.(msixEnabled := !s.msixEnabled), queue) == VIRTIO_MSI_NO_VECTOR
  {
  }
}
