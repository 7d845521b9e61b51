/** The phases of a TCP connection's life, and what each of its functions makes of them. */
module ConnPhases {
  datatype Phase = Connecting | Connected | Disconnecting | Disconnected {
    predicate Open() {
      this == Connected || this == Disconnecting
    }

    // shutdown()
    function ShutDown(): (p: Phase)
      ensures p != Connected && (p.Open() <==> Open()) && (this != Connected ==> p == this)
    {
      if this == Connected then Disconnecting else this
    }

    // forceClose(), which also queues a functor for an open connection
    function ForceClosed(): (p: Phase)
      ensures p != Connected && (p.Open() <==> Open()) && (!Open() ==> p == this)
    {
      if Open() then Disconnecting else this
    }

    // handleClose(), and so forceCloseInLoop()
    function Closed(): (p: Phase)
      ensures !p.Open() && (Open() ==> p != Connecting) && (!Open() ==> p == this)
    {
      if Open() then Disconnected else this
    }

    // connectDestroyed()
    function Destroyed(): (p: Phase)
      ensures p != Connected && (this == Connected ==> !p.Open() && p != Connecting) && (this != Connected ==> p == this)
    {
      if this == Connected then Disconnected else this
    }
  }
}
