/** The zero-configuration networking capability of a platform without
    one: a hardware resource named "ZeroConf" that is never available, never
    enabled, ignores requests to enable it, and hands out one dummy service
    publisher of its own. */
module ZeroConf {
  /** The name the capability registers under as a hardware resource. */
  const ResourceName: string := "ZeroConf"

  /** The service publisher handed out by the controller. Its behaviour is
      not part of this model; only its identity is. */
  class ZeroConfServicePublisher {
    constructor ()
    {
    }
  }

  class PlatformZeroConfController {
    /** The hardware resource name given by the constructor. */
    const name: string
    /** m_zeroConfPublisherDummy: created by the constructor, owned by the
        controller and never reassigned. */
    const publisherDummy: ZeroConfServicePublisher

    /** A new controller named "ZeroConf", with a new dummy publisher of its
        own, unavailable and disabled. */
    constructor ()
      ensures name == ResourceName
      ensures fresh(publisherDummy)
      ensures ServicePublisher() == publisherDummy
      ensures !Available() && !Enabled()
    {
      name := ResourceName;
      publisherDummy := new ZeroConfServicePublisher();
    }

    /** The dummy publisher. It depends on no mutable state, so every call
        returns the same object. */
    function ServicePublisher(): (p: ZeroConfServicePublisher)
    {
      publisherDummy
    }

    /** The capability is unavailable in every state. */
    function Available(): (b: bool)
      ensures !b
    {
      false
    }

    /** The capability is disabled in every state. */
    function Enabled(): (b: bool)
      ensures !b
    {
      false
    }

    /** Requests to switch the capability on or off are ignored: the
        method may modify nothing, so the controller keeps its publisher and
        stays unavailable and disabled. */
    method SetEnabled(enabled: bool)
      ensures !Available() && !Enabled()
      ensures ServicePublisher() == publisherDummy
    {
    }
  }
}
