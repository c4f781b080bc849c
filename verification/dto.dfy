/** The creation request handed from the controller to the service. */
module Dto {
  import opened Wrappers

  datatype CreateOrganizationDto = CreateOrganizationDto(
    name: string,
    email: Option<string>,
    license: Option<string>,
    active: Option<bool>)
}
