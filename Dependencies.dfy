/** The gates every route passes before it reaches the relay service: the
    optional API-key check, the module-level slot that holds the one service
    instance, and the "device must be connected" precondition of the routes
    that talk to hardware. An HTTP error is a status code and a detail text;
    a RuntimeError is the server-side failure of an unset slot. */
module Dependencies {
  import opened Wrappers
  import Service

  const Unauthorized := 401
  const ServiceUnavailable := 503
  const InvalidKeyDetail := "Invalid or missing API key"
  const NotConnectedDetail := "USB relay device is not connected"
  const NotInitializedMessage := "RelayService not initialized"

  datatype GateError =
    | HttpError(status: int, detail: string)
    | RuntimeError(message: string)

  /** The API-key check. An empty configured key switches authentication
      off; otherwise the `X-API-Key` header must be present, non-empty and
      equal to the configured key (the digest comparison decides equality). */
  function VerifyApiKey(configured: string, header: Option<string>): (r: Outcome<GateError>)
    ensures configured == "" ==> r.Pass?
    ensures configured != "" ==> (r.Pass? <==> header == Some(configured))
    ensures r.Fail? ==> r.error == HttpError(Unauthorized, InvalidKeyDetail)
  {
    if configured == "" then Pass
    else if header.None? || header.value == "" || header.value != configured then
      Fail(HttpError(Unauthorized, InvalidKeyDetail))
    else Pass
  }

  /** A present but empty header never authorises: either authentication is
      off, or the request is refused with 401. */
  lemma EmptyHeaderRefused(configured: string)
    ensures VerifyApiKey(configured, Some("")).Pass? <==> configured == ""
    ensures VerifyApiKey(configured, Some("")) == VerifyApiKey(configured, None)
  {
  }

  /** The device gate: the service passes through unchanged when its device
      is connected, and the request is refused with 503 otherwise. */
  function RequireDevice(service: Service.RelayService): (r: Result<Service.RelayService, GateError>)
    reads service.device
    ensures r.Success? <==> service.IsDeviceConnected()
    ensures r.Success? ==> r.value == service
    ensures r.Failure? ==> r.error == HttpError(ServiceUnavailable, NotConnectedDetail)
  {
    if !service.IsDeviceConnected() then Failure(HttpError(ServiceUnavailable, NotConnectedDetail))
    else Success(service)
  }

  /** The module-level slot holding the service the application started. */
  class ServiceSlot {
    var service: Service.RelayService?

    /** At import time the slot is empty. */
    constructor ()
      ensures service == null
    {
      service := null;
    }

    /** Stores the service, replacing any previous one; storing null empties
        the slot again. */
    method InitRelayService(s: Service.RelayService?)
      modifies this
      ensures service == s
    {
      service := s;
    }

    /** The authenticated accessor. The key check runs first, so an
        unauthorised request gets 401 even while the slot is empty. */
    function GetRelayService(configured: string, header: Option<string>)
      : (r: Result<Service.RelayService, GateError>)
      reads this
      ensures r.Success? <==> VerifyApiKey(configured, header).Pass? && service != null
      ensures r.Success? ==> r.value == service
      ensures VerifyApiKey(configured, header).Fail? ==>
        r == Failure(VerifyApiKey(configured, header).error)
      ensures VerifyApiKey(configured, header).Pass? && service == null ==>
        r == Failure(RuntimeError(NotInitializedMessage))
    {
      var auth := VerifyApiKey(configured, header);
      if auth.Fail? then Failure(auth.error)
      else if service == null then Failure(RuntimeError(NotInitializedMessage))
      else Success(service)
    }

    /** The accessor for health and readiness probes: no key check at all. */
    function GetRelayServicePublic(): (r: Result<Service.RelayService, GateError>)
      reads this
      ensures r.Success? <==> service != null
      ensures r.Success? ==> r.value == service
      ensures r.Failure? ==> r.error == RuntimeError(NotInitializedMessage)
    {
      if service == null then Failure(RuntimeError(NotInitializedMessage)) else Success(service)
    }

    /** The public accessor answers as the authenticated one does with
        authentication switched off, whatever key is configured or sent. */
    lemma PublicSkipsKey(configured: string, header: Option<string>)
      ensures GetRelayServicePublic() == GetRelayService("", header)
      ensures VerifyApiKey(configured, header).Pass? ==>
        GetRelayServicePublic() == GetRelayService(configured, header)
    {
    }

    /** A hardware route: the authenticated accessor, then the device gate. */
    function RequireDeviceRoute(configured: string, header: Option<string>)
      : (r: Result<Service.RelayService, GateError>)
      reads this, if service != null then {service.device} else {}
      ensures r.Success? <==>
        && VerifyApiKey(configured, header).Pass?
        && service != null && service.IsDeviceConnected()
      ensures r.Success? ==> r.value == service
      ensures GetRelayService(configured, header).Failure? ==> r == GetRelayService(configured, header)
      ensures VerifyApiKey(configured, header).Pass? && service != null && !service.IsDeviceConnected() ==>
        r == Failure(HttpError(ServiceUnavailable, NotConnectedDetail))
    {
      var s := GetRelayService(configured, header);
      if s.Failure? then s else RequireDevice(s.value)
    }
  }
}
