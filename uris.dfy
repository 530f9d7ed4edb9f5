/** The namespace URIs the generated SOAP and WSDL documents declare. */
module Uris {
  import opened XmlElement

  const WsdlNs: string := "http://schemas.xmlsoap.org/wsdl/"
  const WsdlSoapNs: string := "http://schemas.xmlsoap.org/wsdl/soap/"
  const XsdNs: string := "http://www.w3.org/2001/XMLSchema"
  const XsiNs: string := "http://www.w3.org/2001/XMLSchema-instance"
  const EnvelopeNs: string := "http://schemas.xmlsoap.org/soap/envelope/"
  const EncodingNs: string := "http://schemas.xmlsoap.org/soap/encoding/"

  /** The three namespaces a response Envelope declares, in the order they are set. */
  const EnvelopeAttrs: seq<Attribute> := [("xmlns:xsd", XsdNs), ("xmlns:xsi", XsiNs), ("xmlns:SOAP-ENV", EnvelopeNs)]
}
